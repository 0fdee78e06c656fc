/** Post-allocation list scheduling of one block (`opt_instr_sched_postpass.rs`):
    the dependency graph, and an order that respects it and is timed by it. */
module InstrSched {
  import opened Wrappers
  import opened BlockOrder
  import Finite

  // ---------------------------------------------------------------------------
  // The dependency graph
  // ---------------------------------------------------------------------------

  datatype Edge = Edge(head: nat, latency: nat)

  datatype NodeLabel = NodeLabel(cyclesToEnd: nat, numUses: nat, readyCycle: nat, execLatency: nat)

  /** Write after write, read after write, write after read. */
  datatype Hazard = Waw | Raw | War

  /** Latencies are the target's business: of a hazard on a register between two
      instructions, of one instruction, and from one to the end of the block. */
  datatype Target = Target(latency: (Hazard, Reg, nat, nat) -> nat, exec: nat -> nat, toEnd: nat -> nat)

  class DepGraph {
    var edges: seq<seq<Edge>>
    var labels: seq<NodeLabel>

    constructor (n: nat)
      ensures edges == seq(n, i => []) && labels == seq(n, i => NodeLabel(0, 0, 0, 0))
    {
      edges, labels := seq(n, i => []), seq(n, i => NodeLabel(0, 0, 0, 0));
    }

    method AddEdge(tail: nat, head: nat, latency: nat)
      requires tail < |edges| && head < |edges|
      modifies this`edges
      ensures edges == old(edges)[tail := old(edges)[tail] + [Edge(head, latency)]]
    {
      edges := edges[tail := edges[tail] + [Edge(head, latency)]];
    }
  }

  /** Later reads up to the next write, and that write. */
  datatype RegUse = RegUse(readers: seq<nat>, write: Option<nat>)

  type Uses = map<Reg, RegUse>

  function UseOf(uses: Uses, r: Reg): RegUse {
    if r in uses then uses[r] else RegUse([], None)
  }

  ghost predicate UsesOk(instrs: seq<Instr>, ip: nat, uses: Uses)
    requires ip <= |instrs|
  {
    forall r: Reg :: UseOk(instrs, ip, uses, r)
  }

  ghost predicate UseOk(instrs: seq<Instr>, ip: nat, uses: Uses, r: Reg)
    requires ip <= |instrs|
  {
    && UseOf(uses, r).write == NextWrite(instrs, ip, r)
    && forall k: nat :: k in UseOf(uses, r).readers <==> NearRead(instrs, ip, r, k)
  }

  /** Going backwards, writes come before the reads of the same instruction. */
  method NoteUses(instr: Instr, ip: nat, uses0: Uses) returns (uses: Uses)
    ensures forall r :: UseOf(uses, r).write == if r in instr.dsts then Some(ip) else UseOf(uses0, r).write
    ensures forall r, k :: k in UseOf(uses, r).readers <==> (r !in instr.dsts && k in UseOf(uses0, r).readers) || (k == ip && Reads(instr, r))
  {
    uses := uses0;
    for d := 0 to |instr.dsts|
      invariant forall r :: UseOf(uses, r) == if r in instr.dsts[..d] then RegUse([], Some(ip)) else UseOf(uses0, r)
    {
      assert instr.dsts[..d + 1] == instr.dsts[..d] + [instr.dsts[d]];
      uses := uses[instr.dsts[d] := RegUse([], Some(ip))];
    }
    assert instr.dsts[..|instr.dsts|] == instr.dsts;
    ghost var uses1 := uses;
    if instr.guard.Some? {
      var r := instr.guard.value;
      uses := uses[r := UseOf(uses, r).(readers := UseOf(uses, r).readers + [ip])];
    }
    ghost var uses2 := uses;
    for k := 0 to |instr.srcs|
      invariant forall r :: UseOf(uses, r).write == UseOf(uses1, r).write
      invariant forall r, j :: j in UseOf(uses, r).readers <==> j in UseOf(uses2, r).readers || (j == ip && r in instr.srcs[..k])
    {
      assert instr.srcs[..k + 1] == instr.srcs[..k] + [instr.srcs[k]];
      var r := instr.srcs[k];
      uses := uses[r := UseOf(uses, r).(readers := UseOf(uses, r).readers + [ip])];
    }
    assert instr.srcs[..|instr.srcs|] == instr.srcs;
  }

  lemma UsesNext(instrs: seq<Instr>, ip: nat, uses0: Uses, uses: Uses)
    requires ip < |instrs| && UsesOk(instrs, ip + 1, uses0)
    requires forall r :: UseOf(uses, r).write == if r in instrs[ip].dsts then Some(ip) else UseOf(uses0, r).write
    requires forall r, k :: k in UseOf(uses, r).readers <==>
               (r !in instrs[ip].dsts && k in UseOf(uses0, r).readers) || (k == ip && Reads(instrs[ip], r))
    ensures UsesOk(instrs, ip, uses)
  {
    forall r: Reg
      ensures UseOk(instrs, ip, uses, r)
    {
      assert UseOk(instrs, ip + 1, uses0, r);
    }
  }

  /** An edge for what is known of a register, with the latency of its hazard. */
  predicate OnUse(u: RegUse, lat: (Hazard, Reg, nat, nat) -> nat, write: Hazard, r: Reg, ip: nat, e: Edge) {
    || (u.write == Some(e.head) && e.latency == lat(write, r, ip, e.head))
    || (e.head in u.readers && e.latency == lat(Raw, r, ip, e.head))
  }

  method AddUseEdges(g: DepGraph, ip: nat, u: RegUse, lat: (Hazard, Reg, nat, nat) -> nat, write: Hazard, r: Reg)
    requires ip < |g.edges| && (u.write.Some? ==> u.write.value < |g.edges|) && forall j :: j in u.readers ==> j < |g.edges|
    modifies g`edges
    ensures |g.edges| == old(|g.edges|) && g.edges == old(g.edges)[ip := g.edges[ip]]
    ensures forall e :: e in g.edges[ip] <==> e in old(g.edges)[ip] || OnUse(u, lat, write, r, ip, e)
  {
    if u.write.Some? {
      g.AddEdge(ip, u.write.value, lat(write, r, ip, u.write.value));
    }
    ghost var es := g.edges[ip];
    for k := 0 to |u.readers|
      invariant ip < |g.edges| == old(|g.edges|) && g.edges == old(g.edges)[ip := g.edges[ip]]
      invariant forall e :: e in g.edges[ip] <==> e in es || (e.head in u.readers[..k] && e.latency == lat(Raw, r, ip, e.head))
    {
      assert u.readers[..k + 1] == u.readers[..k] + [u.readers[k]];
      var head := u.readers[k];
      assert head in u.readers;
      g.AddEdge(ip, head, lat(Raw, r, ip, head));
    }
    assert u.readers[..|u.readers|] == u.readers;
  }

  /** The edges there are on a result: to the next write and the reads up to it. */
  ghost predicate OnResult(instrs: seq<Instr>, target: Target, i: nat, r: Reg, e: Edge)
    requires i < |instrs|
  {
    || (NextWrite(instrs, i + 1, r) == Some(e.head) && e.latency == target.latency(Waw, r, i, e.head))
    || (NearRead(instrs, i + 1, r, e.head) && e.latency == target.latency(Raw, r, i, e.head))
  }

  /** The edge there is on an operand: to the next write. */
  ghost predicate OnOperand(instrs: seq<Instr>, target: Target, i: nat, r: Reg, e: Edge)
    requires i < |instrs|
  {
    NextWrite(instrs, i + 1, r) == Some(e.head) && e.latency == target.latency(War, r, i, e.head)
  }

  /** Memory operations and barriers are only kept in order. */
  ghost predicate OnEffect(instrs: seq<Instr>, i: nat, e: Edge)
    requires i < |instrs|
  {
    e.latency == 0 && (BarrierEdge(instrs, i, e.head) || MemoryEdge(instrs, i, e.head))
  }

  /** The edges from instruction `i`. */
  ghost predicate EdgeFrom(instrs: seq<Instr>, target: Target, i: nat, e: Edge)
    requires i < |instrs|
  {
    || OnEffect(instrs, i, e)
    || (exists r :: r in instrs[i].dsts && OnResult(instrs, target, i, r, e))
    || (exists r :: r in instrs[i].srcs && OnOperand(instrs, target, i, r, e))
  }

  /** Every edge is a dependency, and every dependency has an edge. */
  lemma EdgesAreDepends(instrs: seq<Instr>, target: Target, i: nat, j: nat)
    requires i < |instrs|
    ensures Depends(instrs, i, j) <==> exists e :: EdgeFrom(instrs, target, i, e) && e.head == j
  {
    hide BarrierEdge, MemoryEdge, NearRead;
    if BarrierEdge(instrs, i, j) || MemoryEdge(instrs, i, j) {
      assert OnEffect(instrs, i, Edge(j, 0));
      assert EdgeFrom(instrs, target, i, Edge(j, 0));
    }
    if r :| r in instrs[i].dsts && ResultEdge(instrs, i, r, j) {
      var e := Edge(j, target.latency(if NearRead(instrs, i + 1, r, j) then Raw else Waw, r, i, j));
      assert OnResult(instrs, target, i, r, e);
      assert EdgeFrom(instrs, target, i, e);
    }
    if r :| r in instrs[i].srcs && OperandEdge(instrs, i, r, j) {
      var e := Edge(j, target.latency(War, r, i, j));
      assert OnOperand(instrs, target, i, r, e);
      assert EdgeFrom(instrs, target, i, e);
    }
    if e :| EdgeFrom(instrs, target, i, e) && e.head == j {
      if r :| r in instrs[i].dsts && OnResult(instrs, target, i, r, e) {
        assert ResultEdge(instrs, i, r, j);
      } else if r :| r in instrs[i].srcs && OnOperand(instrs, target, i, r, e) {
        assert OperandEdge(instrs, i, r, j);
      }
    }
  }

  /** What is known of a register while `ip` is looked at lies behind `ip`. */
  lemma UseInRange(instrs: seq<Instr>, target: Target, ip: nat, uses: Uses, r: Reg)
    requires ip < |instrs| && UsesOk(instrs, ip + 1, uses)
    ensures UseOf(uses, r).write.Some? ==> UseOf(uses, r).write.value < |instrs|
    ensures forall j :: j in UseOf(uses, r).readers ==> j < |instrs|
    ensures forall e :: OnUse(UseOf(uses, r), target.latency, Waw, r, ip, e) <==> OnResult(instrs, target, ip, r, e)
    ensures forall e :: OnUse(RegUse([], UseOf(uses, r).write), target.latency, War, r, ip, e) <==> OnOperand(instrs, target, ip, r, e)
  {
    assert UseOk(instrs, ip + 1, uses, r);
  }

  ghost predicate OnResults(instrs: seq<Instr>, target: Target, ip: nat, n: nat, e: Edge)
    requires ip < |instrs| && n <= |instrs[ip].dsts|
  {
    exists d :: 0 <= d < n && OnResult(instrs, target, ip, instrs[ip].dsts[d], e)
  }

  method AddResultEdges(g: DepGraph, instrs: seq<Instr>, ip: nat, uses: Uses, target: Target)
    requires ip < |instrs| == |g.edges| && UsesOk(instrs, ip + 1, uses)
    modifies g`edges
    ensures |g.edges| == |instrs| && g.edges == old(g.edges)[ip := g.edges[ip]]
    ensures forall e :: e in g.edges[ip] <==> e in old(g.edges)[ip] || OnResults(instrs, target, ip, |instrs[ip].dsts|, e)
  {
    var dsts := instrs[ip].dsts;
    hide UsesOk, OnResult, OnOperand, OnUse;
    for d := 0 to |dsts|
      invariant |g.edges| == |instrs| && g.edges == old(g.edges)[ip := g.edges[ip]]
      invariant forall e :: e in g.edges[ip] <==> e in old(g.edges)[ip] || OnResults(instrs, target, ip, d, e)
    {
      UseInRange(instrs, target, ip, uses, dsts[d]);
      AddUseEdges(g, ip, UseOf(uses, dsts[d]), target.latency, Waw, dsts[d]);
      forall e: Edge
        ensures OnResults(instrs, target, ip, d + 1, e) <==> OnResults(instrs, target, ip, d, e) || OnResult(instrs, target, ip, dsts[d], e)
      {
        if OnResult(instrs, target, ip, dsts[d], e) { assert OnResults(instrs, target, ip, d + 1, e); }
      }
      hide OnResults;
    }
  }

  ghost predicate OnOperands(instrs: seq<Instr>, target: Target, ip: nat, n: nat, e: Edge)
    requires ip < |instrs| && n <= |instrs[ip].srcs|
  {
    exists k :: 0 <= k < n && OnOperand(instrs, target, ip, instrs[ip].srcs[k], e)
  }

  method AddOperandEdges(g: DepGraph, instrs: seq<Instr>, ip: nat, uses: Uses, target: Target)
    requires ip < |instrs| == |g.edges| && UsesOk(instrs, ip + 1, uses)
    modifies g`edges
    ensures |g.edges| == |instrs| && g.edges == old(g.edges)[ip := g.edges[ip]]
    ensures forall e :: e in g.edges[ip] <==> e in old(g.edges)[ip] || OnOperands(instrs, target, ip, |instrs[ip].srcs|, e)
  {
    var srcs := instrs[ip].srcs;
    hide UsesOk, OnResult, OnOperand, OnUse;
    for k := 0 to |srcs|
      invariant |g.edges| == |instrs| && g.edges == old(g.edges)[ip := g.edges[ip]]
      invariant forall e :: e in g.edges[ip] <==> e in old(g.edges)[ip] || OnOperands(instrs, target, ip, k, e)
    {
      UseInRange(instrs, target, ip, uses, srcs[k]);
      AddUseEdges(g, ip, RegUse([], UseOf(uses, srcs[k]).write), target.latency, War, srcs[k]);
      forall e: Edge
        ensures OnOperands(instrs, target, ip, k + 1, e) <==> OnOperands(instrs, target, ip, k, e) || OnOperand(instrs, target, ip, srcs[k], e)
      {
        if OnOperand(instrs, target, ip, srcs[k], e) { assert OnOperands(instrs, target, ip, k + 1, e); }
      }
      hide OnOperands;
    }
  }

  /** Ordering among memory operations, and around barriers. */
  method AddEffectEdges(g: DepGraph, instrs: seq<Instr>, ip: nat, lastMemory: Option<nat>, lastBarrier: Option<nat>)
    requires ip < |instrs| == |g.edges| && g.edges[ip] == []
    requires lastMemory == NextEffect(instrs, ip + 1, Memory) && lastBarrier == NextEffect(instrs, ip + 1, Barrier)
    modifies g`edges
    ensures |g.edges| == |instrs| && g.edges == old(g.edges)[ip := g.edges[ip]]
    ensures forall e :: e in g.edges[ip] <==> OnEffect(instrs, ip, e)
  {
    if lastBarrier.Some? { g.AddEdge(ip, lastBarrier.value, 0); }
    ghost var es := g.edges[ip];
    assert forall e :: e in es <==> lastBarrier == Some(e.head) && e.latency == 0;
    match instrs[ip].effect {
      case Nothing =>
      case Memory =>
        if lastMemory.Some? { g.AddEdge(ip, lastMemory.value, 0); }
      case Barrier =>
        var last := if lastBarrier.Some? then lastBarrier.value else |instrs|;
        for other := ip + 1 to last
          invariant |g.edges| == |instrs| && g.edges == old(g.edges)[ip := g.edges[ip]]
          invariant forall e :: e in g.edges[ip] <==> e in es || (ip < e.head < other && e.latency == 0)
        {
          g.AddEdge(ip, other, 0);
        }
    }
  }

  ghost predicate EdgesOk(instrs: seq<Instr>, target: Target, i: nat, es: seq<Edge>)
    requires i < |instrs|
  {
    forall e :: e in es <==> EdgeFrom(instrs, target, i, e)
  }

  lemma AllEdges(instrs: seq<Instr>, target: Target, ip: nat, es: seq<Edge>)
    requires ip < |instrs|
    requires forall e :: e in es <==>
               OnEffect(instrs, ip, e) || OnResults(instrs, target, ip, |instrs[ip].dsts|, e) || OnOperands(instrs, target, ip, |instrs[ip].srcs|, e)
    ensures EdgesOk(instrs, target, ip, es)
  {
    hide OnEffect, OnResult, OnOperand;
    var dsts, srcs := instrs[ip].dsts, instrs[ip].srcs;
    forall e: Edge
      ensures e in es <==> EdgeFrom(instrs, target, ip, e)
    {
      if r :| r in dsts && OnResult(instrs, target, ip, r, e) {
        var d :| 0 <= d < |dsts| && dsts[d] == r;
        assert OnResults(instrs, target, ip, |dsts|, e);
      }
      if r :| r in srcs && OnOperand(instrs, target, ip, r, e) {
        var k :| 0 <= k < |srcs| && srcs[k] == r;
        assert OnOperands(instrs, target, ip, |srcs|, e);
      }
      if OnResults(instrs, target, ip, |dsts|, e) {
        var d :| 0 <= d < |dsts| && OnResult(instrs, target, ip, dsts[d], e);
        assert dsts[d] in dsts;
      }
      if OnOperands(instrs, target, ip, |srcs|, e) {
        var k :| 0 <= k < |srcs| && OnOperand(instrs, target, ip, srcs[k], e);
        assert srcs[k] in srcs;
      }
    }
  }

  method AddInstrEdges(g: DepGraph, instrs: seq<Instr>, ip: nat, uses: Uses, lastMemory: Option<nat>, lastBarrier: Option<nat>, target: Target)
    requires ip < |instrs| == |g.edges| && g.edges[ip] == [] && UsesOk(instrs, ip + 1, uses)
    requires lastMemory == NextEffect(instrs, ip + 1, Memory) && lastBarrier == NextEffect(instrs, ip + 1, Barrier)
    modifies g`edges
    ensures |g.edges| == |instrs| && g.edges == old(g.edges)[ip := g.edges[ip]] && EdgesOk(instrs, target, ip, g.edges[ip])
  {
    hide UsesOk, OnEffect, OnResults, OnOperands;
    AddEffectEdges(g, instrs, ip, lastMemory, lastBarrier);
    AddResultEdges(g, instrs, ip, uses, target);
    AddOperandEdges(g, instrs, ip, uses, target);
    AllEdges(instrs, target, ip, g.edges[ip]);
  }

  /** The graph: going backwards, every instruction gets edges to those behind it
      that it has to stay in front of. */
  method GenerateDepGraph(instrs: seq<Instr>, target: Target) returns (g: DepGraph)
    ensures fresh(g) && |g.edges| == |g.labels| == |instrs|
    ensures forall i :: 0 <= i < |instrs| ==> EdgesOk(instrs, target, i, g.edges[i])
    ensures forall i :: 0 <= i < |instrs| ==> g.labels[i] == NodeLabel(0, 0, target.toEnd(i), target.exec(i))
  {
    g := new DepGraph(|instrs|);
    var uses: Uses := map[];
    var lastMemory: Option<nat>, lastBarrier: Option<nat> := None, None;
    assert UsesOk(instrs, |instrs|, uses) by {
      forall r: Reg ensures UseOk(instrs, |instrs|, uses, r) {}
    }
    var ip: nat := |instrs|;
    hide UsesOk, EdgesOk;
    while ip > 0
      invariant ip <= |instrs| == |g.edges| == |g.labels| && UsesOk(instrs, ip, uses)
      invariant lastMemory == NextEffect(instrs, ip, Memory) && lastBarrier == NextEffect(instrs, ip, Barrier)
      invariant forall i :: 0 <= i < ip ==> g.edges[i] == []
      invariant forall i :: ip <= i < |instrs| ==> EdgesOk(instrs, target, i, g.edges[i])
      invariant forall i :: ip <= i < |instrs| ==> g.labels[i] == NodeLabel(0, 0, target.toEnd(i), target.exec(i))
    {
      ip := ip - 1;
      AddInstrEdges(g, instrs, ip, uses, lastMemory, lastBarrier, target);
      if instrs[ip].effect.Memory? { lastMemory := Some(ip); }
      if instrs[ip].effect.Barrier? { lastBarrier := Some(ip); }
      ghost var uses0 := uses;
      uses := NoteUses(instrs[ip], ip, uses);
      UsesNext(instrs, ip, uses0, uses);
      g.labels := g.labels[ip := NodeLabel(0, 0, target.toEnd(ip), target.exec(ip))];
    }
  }

  // ---------------------------------------------------------------------------
  // Counting edges
  // ---------------------------------------------------------------------------

  /** Edges to `head`. */
  function CountTo(es: seq<Edge>, head: nat): nat {
    if es == [] then 0 else CountTo(es[..|es| - 1], head) + if es[|es| - 1].head == head then 1 else 0
  }

  /** Edges to nodes outside `done`. */
  function Pending(es: seq<Edge>, done: set<nat>): nat {
    if es == [] then 0 else Pending(es[..|es| - 1], done) + if es[|es| - 1].head !in done then 1 else 0
  }

  lemma {:induction false} PendingNone(es: seq<Edge>)
    ensures Pending(es, {}) == |es|
  {
    if es != [] { PendingNone(es[..|es| - 1]); }
  }

  lemma {:induction false} PendingDone(es: seq<Edge>, done: set<nat>, x: nat)
    requires x !in done
    ensures Pending(es, done) == Pending(es, done + {x}) + CountTo(es, x)
  {
    if es != [] { PendingDone(es[..|es| - 1], done, x); }
  }

  lemma {:induction false} PendingZero(es: seq<Edge>, done: set<nat>)
    ensures Pending(es, done) == 0 <==> forall k :: 0 <= k < |es| ==> es[k].head in done
  {
    if es != [] {
      var init := es[..|es| - 1];
      PendingZero(init, done);
      if Pending(es, done) == 0 {
        forall k | 0 <= k < |es|
          ensures es[k].head in done
        {
          if k < |es| - 1 { assert init[k] == es[k]; }
        }
      } else if es[|es| - 1].head in done {
        var k :| 0 <= k < |init| && init[k].head !in done;
        assert es[k].head !in done;
      }
    }
  }

  /** The edges of `es` to `head`, turned round: they lead to `tail`. */
  function Turned(es: seq<Edge>, head: nat, tail: nat): seq<Edge> {
    if es == [] then []
    else
      var e := es[|es| - 1];
      Turned(es[..|es| - 1], head, tail) + if e.head == head then [Edge(tail, e.latency)] else []
  }

  /** All edges from tails below `n` to `head`, turned round. */
  function Incoming(edges: seq<seq<Edge>>, head: nat, n: nat): seq<Edge>
    requires n <= |edges|
  {
    if n == 0 then [] else Incoming(edges, head, n - 1) + Turned(edges[n - 1], head, n - 1)
  }

  lemma {:induction false} CountAppend(a: seq<Edge>, b: seq<Edge>, t: nat)
    ensures CountTo(a + b, t) == CountTo(a, t) + CountTo(b, t)
  {
    if b == [] {
      assert a + b == a;
    } else {
      assert (a + b)[..|a + b| - 1] == a + b[..|b| - 1];
      CountAppend(a, b[..|b| - 1], t);
    }
  }

  lemma {:induction false} CountTurned(es: seq<Edge>, head: nat, tail: nat, t: nat)
    ensures CountTo(Turned(es, head, tail), t) == if t == tail then CountTo(es, head) else 0
  {
    if es != [] {
      var e := es[|es| - 1];
      CountTurned(es[..|es| - 1], head, tail, t);
      var one := if e.head == head then [Edge(tail, e.latency)] else [];
      CountAppend(Turned(es[..|es| - 1], head, tail), one, t);
      assert CountTo(one, t) == if e.head == head && t == tail then 1 else 0 by { assert one == [] || one[..0] == []; }
    }
  }

  lemma {:induction false} CountIncoming(edges: seq<seq<Edge>>, head: nat, n: nat, t: nat)
    requires n <= |edges|
    ensures CountTo(Incoming(edges, head, n), t) == if t < n then CountTo(edges[t], head) else 0
  {
    if n > 0 {
      CountIncoming(edges, head, n - 1, t);
      CountTurned(edges[n - 1], head, n - 1, t);
      CountAppend(Incoming(edges, head, n - 1), Turned(edges[n - 1], head, n - 1), t);
    }
  }

  lemma {:induction false} TurnedEdges(es: seq<Edge>, head: nat, tail: nat, e: Edge)
    ensures e in Turned(es, head, tail) <==> e.head == tail && Edge(head, e.latency) in es
  {
    if es != [] {
      var init := es[..|es| - 1];
      TurnedEdges(init, head, tail, e);
      assert es == init + [es[|es| - 1]];
    }
  }

  lemma {:induction false} IncomingEdges(edges: seq<seq<Edge>>, head: nat, n: nat, e: Edge)
    requires n <= |edges|
    ensures e in Incoming(edges, head, n) <==> e.head < n && Edge(head, e.latency) in edges[e.head]
  {
    if n > 0 {
      IncomingEdges(edges, head, n - 1, e);
      TurnedEdges(edges[n - 1], head, n - 1, e);
    }
  }

  lemma {:induction false} CountPositive(es: seq<Edge>, t: nat)
    ensures CountTo(es, t) > 0 <==> exists k :: 0 <= k < |es| && es[k].head == t
  {
    if es != [] {
      var init := es[..|es| - 1];
      CountPositive(init, t);
      if k :| 0 <= k < |es| && es[k].head == t && k < |es| - 1 { assert init[k].head == t; }
      if k :| 0 <= k < |init| && init[k].head == t { assert es[k].head == t; }
    }
  }

  lemma IncomingTails(edges: seq<seq<Edge>>, head: nat, n: nat, k: nat)
    requires n <= |edges| && k < |Incoming(edges, head, n)|
    ensures Incoming(edges, head, n)[k].head < n
  {
    var t := Incoming(edges, head, n)[k].head;
    CountPositive(Incoming(edges, head, n), t);
    CountIncoming(edges, head, n, t);
  }

  // ---------------------------------------------------------------------------
  // Statistics and reversal
  // ---------------------------------------------------------------------------

  ghost predicate Forward(edges: seq<seq<Edge>>) {
    forall i, k :: 0 <= i < |edges| && 0 <= k < |edges[i]| ==> i < edges[i][k].head < |edges|
  }

  /** The longest latency-weighted path from a node to the end, node by node. */
  ghost predicate Longest(es: seq<Edge>, labels: seq<NodeLabel>, depth: nat) {
    && (forall k :: 0 <= k < |es| ==> es[k].head < |labels| && labels[es[k].head].cyclesToEnd + es[k].latency <= depth)
    && (depth == 0 || exists k :: 0 <= k < |es| && es[k].head < |labels| && labels[es[k].head].cyclesToEnd + es[k].latency == depth)
  }

  method MaxDelay(es: seq<Edge>, labels: seq<NodeLabel>) returns (d: nat)
    requires forall k :: 0 <= k < |es| ==> es[k].head < |labels|
    ensures Longest(es, labels, d)
  {
    d := 0;
    for k := 0 to |es|
      invariant forall m :: 0 <= m < k ==> labels[es[m].head].cyclesToEnd + es[m].latency <= d
      invariant d == 0 || exists m :: 0 <= m < k && labels[es[m].head].cyclesToEnd + es[m].latency == d
    {
      var c := labels[es[k].head].cyclesToEnd + es[k].latency;
      if c > d { d := c; }
    }
  }

  /** What the statistics say of node `j`. */
  ghost predicate StatOk(edges: seq<seq<Edge>>, labels: seq<NodeLabel>, j: nat)
    requires j < |edges| == |labels|
  {
    labels[j].numUses == |edges[j]| && Longest(edges[j], labels, labels[j].cyclesToEnd)
  }

  ghost predicate SameTimes(a: seq<NodeLabel>, b: seq<NodeLabel>) {
    |a| == |b| && forall j :: 0 <= j < |a| ==> b[j].readyCycle == a[j].readyCycle && b[j].execLatency == a[j].execLatency
  }

  lemma StatNext(edges: seq<seq<Edge>>, a: seq<NodeLabel>, b: seq<NodeLabel>, i: nat, d: nat)
    requires i < |edges| == |a| && Forward(edges) && Longest(edges[i], a, d)
    requires b == a[i := a[i].(cyclesToEnd := d, numUses := |edges[i]|)]
    requires forall j :: i < j < |edges| ==> StatOk(edges, a, j)
    ensures forall j :: i <= j < |edges| ==> StatOk(edges, b, j)
  {
    forall j | i <= j < |edges|
      ensures StatOk(edges, b, j)
    {
      if j > i { assert StatOk(edges, a, j); }
      LongestStays(edges[j], a, b, i, b[j].cyclesToEnd);
    }
  }

  /** `calc_statistics`: critical paths, uses, and the nodes without any. */
  method CalcStatistics(g: DepGraph) returns (ready: seq<nat>)
    requires |g.edges| == |g.labels| && Forward(g.edges)
    modifies g`labels
    ensures SameTimes(old(g.labels), g.labels)
    ensures forall i :: 0 <= i < |g.edges| ==> StatOk(g.edges, g.labels, i)
    ensures forall i :: 0 <= i < |g.edges| ==> g.labels[i].numUses == |g.edges[i]|
    ensures forall i: nat :: i in ready <==> i < |g.edges| && g.edges[i] == []
  {
    ready := [];
    var i: nat := |g.edges|;
    hide StatOk, Longest;
    while i > 0
      invariant i <= |g.edges| && SameTimes(old(g.labels), g.labels)
      invariant forall j :: i <= j < |g.edges| ==> StatOk(g.edges, g.labels, j)
      invariant forall j :: i <= j < |g.edges| ==> g.labels[j].numUses == |g.edges[j]|
      invariant forall j: nat :: j in ready <==> i <= j < |g.edges| && g.edges[j] == []
    {
      i := i - 1;
      var d := MaxDelay(g.edges[i], g.labels);
      ghost var before := g.labels;
      g.labels := g.labels[i := g.labels[i].(cyclesToEnd := d, numUses := |g.edges[i]|)];
      StatNext(g.edges, before, g.labels, i, d);
      hide Forward;
      if g.edges[i] == [] { ready := ready + [i]; }
    }
  }

  lemma LongestStays(es: seq<Edge>, a: seq<NodeLabel>, b: seq<NodeLabel>, i: nat, depth: nat)
    requires Longest(es, a, depth) && |a| == |b| && (forall k :: 0 <= k < |es| ==> i < es[k].head)
    requires forall j :: i < j < |a| ==> b[j] == a[j]
    ensures Longest(es, b, depth)
  {
    if depth > 0 {
      var k :| 0 <= k < |es| && es[k].head < |a| && a[es[k].head].cyclesToEnd + es[k].latency == depth;
      assert b[es[k].head].cyclesToEnd + es[k].latency == depth;
    }
  }

  /** The edges of one tail, turned round. */
  method TurnRound(g: DepGraph, es: seq<Edge>, t: nat)
    requires forall k :: 0 <= k < |es| ==> es[k].head < |g.edges|
    requires t < |g.edges|
    modifies g`edges
    ensures |g.edges| == old(|g.edges|)
    ensures forall h :: 0 <= h < |g.edges| ==> g.edges[h] == old(g.edges)[h] + Turned(es, h, t)
  {
    for k := 0 to |es|
      invariant |g.edges| == old(|g.edges|)
      invariant forall h :: 0 <= h < |g.edges| ==> g.edges[h] == old(g.edges)[h] + Turned(es[..k], h, t)
    {
      forall h: nat
        ensures Turned(es[..k + 1], h, t) == Turned(es[..k], h, t) + if es[k].head == h then [Edge(t, es[k].latency)] else []
      {
        assert es[..k + 1][..k] == es[..k];
      }
      hide Turned;
      g.AddEdge(es[k].head, t, es[k].latency);
    }
    assert es[..|es|] == es;
  }

  /** `reverse`. */
  method Reverse(g: DepGraph)
    requires Forward(g.edges)
    modifies g`edges
    ensures |g.edges| == old(|g.edges|)
    ensures forall h :: 0 <= h < |g.edges| ==> g.edges[h] == Incoming(old(g.edges), h, |g.edges|)
  {
    var from := g.edges;
    var n := |from|;
    g.edges := seq(n, i => []);
    hide Turned, Forward;
    for t := 0 to n
      invariant |g.edges| == n && forall h :: 0 <= h < n ==> g.edges[h] == Incoming(from, h, t)
    {
      ForwardAt(from, t);
      ghost var before := g.edges;
      TurnRound(g, from[t], t);
      forall h | 0 <= h < n
        ensures g.edges[h] == Incoming(from, h, t + 1)
      {
        assert before[h] == Incoming(from, h, t);
      }
      hide Incoming;
    }
  }

  lemma ForwardAt(edges: seq<seq<Edge>>, t: nat)
    requires Forward(edges) && t < |edges|
    ensures forall k :: 0 <= k < |edges[t]| ==> edges[t][k].head < |edges|
  {
  }

  // ---------------------------------------------------------------------------
  // The list scheduler
  // ---------------------------------------------------------------------------

  /** Priority among ready instructions: the longest way to the top, then the last in
      program order. */
  predicate ReadyBefore(labels: seq<NodeLabel>, a: nat, b: nat)
    requires a < |labels| && b < |labels|
  {
    var x, y := labels[a].cyclesToEnd + labels[a].execLatency, labels[b].cyclesToEnd + labels[b].execLatency;
    x > y || (x == y && a >= b)
  }

  /** The first cycle an instruction can end in, counting from the end of the block. */
  function FutureKey(l: NodeLabel): nat {
    if l.readyCycle >= l.execLatency then l.readyCycle - l.execLatency else 0
  }

  predicate FutureBefore(labels: seq<NodeLabel>, a: nat, b: nat)
    requires a < |labels| && b < |labels|
  {
    var x, y := FutureKey(labels[a]), FutureKey(labels[b]);
    x < y || (x == y && a >= b)
  }

  method BestReady(ready: set<nat>, labels: seq<NodeLabel>) returns (x: nat)
    requires ready != {} && forall t :: t in ready ==> t < |labels|
    ensures x in ready && forall t :: t in ready ==> ReadyBefore(labels, x, t)
  {
    x :| x in ready;
    var left := ready - {x};
    while left != {}
      invariant left <= ready && x in ready
      invariant forall t :: t in ready && t !in left ==> ReadyBefore(labels, x, t)
    {
      var t :| t in left;
      if !ReadyBefore(labels, x, t) { x := t; }
      left := left - {t};
    }
  }

  method FirstFuture(future: set<nat>, labels: seq<NodeLabel>) returns (x: nat)
    requires future != {} && forall t :: t in future ==> t < |labels|
    ensures x in future && forall t :: t in future ==> FutureBefore(labels, x, t)
  {
    x :| x in future;
    var left := future - {x};
    while left != {}
      invariant left <= future && x in future
      invariant forall t :: t in future && t !in left ==> FutureBefore(labels, x, t)
    {
      var t :| t in left;
      if !FutureBefore(labels, x, t) { x := t; }
      left := left - {t};
    }
  }

  ghost function Woken(es: seq<Edge>, labels: seq<NodeLabel>): set<nat> {
    set t | 0 <= t < |labels| && CountTo(es, t) > 0 && labels[t].numUses == 0
  }

  /** What releasing one scheduled instruction's predecessors does to a label. */
  ghost predicate Released(a: NodeLabel, b: NodeLabel, es: seq<Edge>, t: nat) {
    && a.numUses == b.numUses + CountTo(es, t) && a.readyCycle <= b.readyCycle
    && b.execLatency == a.execLatency && b.cyclesToEnd == a.cyclesToEnd
    && (CountTo(es, t) == 0 ==> b == a)
  }

  /** The ready cycle is raised to what the edges ask, and no further. */
  ghost predicate Raised(a: NodeLabel, b: NodeLabel, es: seq<Edge>, t: nat, current: nat) {
    && a.readyCycle <= b.readyCycle
    && (forall k :: 0 <= k < |es| && es[k].head == t ==> current + es[k].latency <= b.readyCycle)
    && (b.readyCycle == a.readyCycle || exists k :: 0 <= k < |es| && es[k].head == t && current + es[k].latency == b.readyCycle)
  }

  lemma RaisedNext(a: NodeLabel, l: NodeLabel, m: NodeLabel, es: seq<Edge>, n: nat, t: nat, current: nat)
    requires n < |es| && Raised(a, l, es[..n], t, current)
    requires if es[n].head == t then m.readyCycle == Larger(l.readyCycle, current + es[n].latency) else m == l
    ensures Raised(a, m, es[..n + 1], t, current)
  {
    var old_, new_ := es[..n], es[..n + 1];
    assert new_ == old_ + [es[n]];
    if l.readyCycle != a.readyCycle {
      var k :| 0 <= k < n && old_[k].head == t && current + old_[k].latency == l.readyCycle;
      assert new_[k] == old_[k];
    }
    assert new_[n] == es[n];
  }

  function Larger(a: nat, b: nat): nat { if a >= b then a else b }

  /** The instruction just scheduled ends at `current`: those before it lose a use,
      and wait for the latency. */
  method Release(labels0: seq<NodeLabel>, es: seq<Edge>, current: nat, future0: set<nat>)
    returns (labels: seq<NodeLabel>, future: set<nat>)
    requires forall k :: 0 <= k < |es| ==> es[k].head < |labels0|
    requires forall t :: 0 <= t < |labels0| ==> CountTo(es, t) <= labels0[t].numUses
    ensures |labels| == |labels0| && forall t :: 0 <= t < |labels| ==> Released(labels0[t], labels[t], es, t)
    ensures forall t :: 0 <= t < |labels| ==> Raised(labels0[t], labels[t], es, t, current)
    ensures future == future0 + Woken(es, labels)
  {
    labels, future := labels0, future0;
    assert Woken([], labels) == {};
    NothingReleased(labels0, current);
    hide Woken, CountTo, Released, Raised;
    for k := 0 to |es|
      invariant |labels| == |labels0| && forall t :: 0 <= t < |labels| ==> Released(labels0[t], labels[t], es[..k], t)
      invariant forall t :: 0 <= t < |labels| ==> Raised(labels0[t], labels[t], es[..k], t, current)
      invariant future == future0 + Woken(es[..k], labels)
    {
      var e := es[k];
      var l := labels[e.head];
      UseLeft(labels0[e.head], l, es, k);
      var ready := Larger(l.readyCycle, current + e.latency);
      ghost var before := labels;
      labels := labels[e.head := l.(readyCycle := ready, numUses := l.numUses - 1)];
      if labels[e.head].numUses == 0 {
        future := future + {e.head};
      }
      WokenNext(es, k, before, labels);
      forall t: nat | t < |labels|
        ensures Released(labels0[t], labels[t], es[..k + 1], t) && Raised(labels0[t], labels[t], es[..k + 1], t, current)
      {
        ReleasedNext(labels0[t], before[t], labels[t], es, k, t);
        RaisedNext(labels0[t], before[t], labels[t], es, k, t, current);
      }
    }
    assert es[..|es|] == es;
  }

  lemma NothingReleased(labels: seq<NodeLabel>, current: nat)
    ensures forall t :: 0 <= t < |labels| ==> Released(labels[t], labels[t], [], t) && Raised(labels[t], labels[t], [], t, current)
  {
  }

  lemma UseLeft(a: NodeLabel, l: NodeLabel, es: seq<Edge>, k: nat)
    requires k < |es| && Released(a, l, es[..k], es[k].head) && CountTo(es, es[k].head) <= a.numUses
    ensures l.numUses > 0
  {
    CountLeft(es, k, es[k].head);
  }

  lemma ReleasedNext(a: NodeLabel, l: NodeLabel, m: NodeLabel, es: seq<Edge>, k: nat, t: nat)
    requires k < |es| && Released(a, l, es[..k], t)
    requires if es[k].head == t then
               l.numUses > 0 && m == l.(readyCycle := m.readyCycle, numUses := l.numUses - 1) && l.readyCycle <= m.readyCycle
             else m == l
    ensures Released(a, m, es[..k + 1], t)
  {
    assert es[..k + 1][..k] == es[..k];
  }

  lemma {:induction false} CountPrefix(es: seq<Edge>, k: nat, t: nat)
    requires k <= |es|
    ensures CountTo(es[..k], t) <= CountTo(es, t)
  {
    CountAppend(es[..k], es[k..], t);
    assert es == es[..k] + es[k..];
  }

  lemma CountLeft(es: seq<Edge>, k: nat, t: nat)
    requires k < |es| && es[k].head == t
    ensures CountTo(es[..k], t) + 1 == CountTo(es[..k + 1], t) <= CountTo(es, t)
  {
    assert es[..k + 1][..k] == es[..k];
    CountPrefix(es, k + 1, t);
  }

  lemma WokenNext(es: seq<Edge>, k: nat, a: seq<NodeLabel>, b: seq<NodeLabel>)
    requires k < |es| && es[k].head < |a| == |b| && a[es[k].head].numUses > 0
    requires b == a[es[k].head := b[es[k].head]] && b[es[k].head].numUses == a[es[k].head].numUses - 1
    ensures Woken(es[..k + 1], b) == Woken(es[..k], a) + if b[es[k].head].numUses == 0 then {es[k].head} else {}
  {
    assert es[..k + 1][..k] == es[..k];
  }

  /** `order` lists, backwards, what has been scheduled: each once, all its heads
      before it. */
  ghost predicate Scheduled(edges: seq<seq<Edge>>, order: seq<nat>) {
    && Below(order, |edges|) && NoRepeats(order)
    && forall p, k :: 0 <= p < |order| && 0 <= k < |edges[order[p]]| ==> edges[order[p]][k].head in order[..p]
  }

  /** Uses count the edges to what is not scheduled; what has none left waits in one
      of the two heaps. */
  ghost predicate CountedAt(es: seq<Edge>, order: seq<nat>, inReady: bool, inFuture: bool, uses: nat, t: nat) {
    && uses == Pending(es, Members(order)) && !(inReady && inFuture)
    && (inReady || inFuture <==> t !in order && uses == 0) && (t in order ==> uses == 0)
  }

  ghost predicate Counted(edges: seq<seq<Edge>>, order: seq<nat>, ready: set<nat>, future: set<nat>, labels: seq<NodeLabel>) {
    && |labels| == |edges| && (forall t: nat :: t in ready + future ==> t < |edges|)
    && forall t: nat :: t < |edges| ==> CountedAt(edges[t], order, t in ready, t in future, labels[t].numUses, t)
  }

  /** `begin` is when, counting from the end of the block, an instruction begins; what
      is ready may end now. */
  ghost predicate Timed(edges: seq<seq<Edge>>, order: seq<nat>, ready: set<nat>, labels: seq<NodeLabel>, current: nat, begin: map<nat, nat>) {
    && |labels| == |edges| && begin.Keys == Members(order)
    && (forall t :: t in ready ==> t < |edges| && labels[t].readyCycle <= current + labels[t].execLatency)
  }

  lemma ScheduledNext(edges: seq<seq<Edge>>, order: seq<nat>, x: nat, labels: seq<NodeLabel>, ready: set<nat>, future: set<nat>)
    requires Scheduled(edges, order) && Counted(edges, order, ready, future, labels) && x in ready
    ensures Scheduled(edges, order + [x]) && x !in order && x < |edges|
  {
    assert x in ready + future;
    assert CountedAt(edges[x], order, true, x in future, labels[x].numUses, x);
    PendingZero(edges[x], Members(order));
    var order' := order + [x];
    forall p, k | 0 <= p < |order'| && 0 <= k < |edges[order'[p]]|
      ensures edges[order'[p]][k].head in order'[..p]
    {
      if p < |order| {
        assert order'[..p] == order[..p];
      } else {
        assert order'[..p] == order;
      }
    }
  }

  lemma MembersNext(order: seq<nat>, x: nat)
    ensures Members(order + [x]) == Members(order) + {x}
  {
  }

  lemma UsesEnough(edges: seq<seq<Edge>>, order: seq<nat>, x: nat, t: nat)
    requires x < |edges| && t < |edges| && x !in order
    ensures Pending(edges[t], Members(order)) == Pending(edges[t], Members(order + [x])) + CountTo(Incoming(edges, x, |edges|), t)
  {
    MembersNext(order, x);
    PendingDone(edges[t], Members(order), x);
    CountIncoming(edges, x, |edges|, t);
  }

  lemma CountedNextAt(edges: seq<seq<Edge>>, order: seq<nat>, x: nat, inReady: bool, inFuture: bool, inFuture': bool, a: NodeLabel, b: NodeLabel, t: nat)
    requires Forward(edges) && x < |edges| && t < |edges| && x !in order
    requires CountedAt(edges[t], order, inReady, inFuture, a.numUses, t) && (t == x ==> inReady)
    requires var es := Incoming(edges, x, |edges|);
             Released(a, b, es, t) && (inFuture' <==> inFuture || (CountTo(es, t) > 0 && b.numUses == 0))
    ensures CountedAt(edges[t], order + [x], inReady && t != x, inFuture', b.numUses, t)
  {
    UsesEnough(edges, order, x, t);
    NoSelfEdge(edges, x);
  }

  lemma CountedNext(edges: seq<seq<Edge>>, order: seq<nat>, x: nat, ready: set<nat>, future: set<nat>, labels: seq<NodeLabel>,
                    future': set<nat>, labels': seq<NodeLabel>)
    requires Counted(edges, order, ready, future, labels) && x in ready && x < |edges| && x !in order
    requires Forward(edges) && |labels'| == |labels|
    requires var es := Incoming(edges, x, |edges|);
             (forall t :: 0 <= t < |labels| ==> Released(labels[t], labels'[t], es, t)) && future' == future + Woken(es, labels')
    ensures Counted(edges, order + [x], ready - {x}, future', labels')
  {
    hide Forward, CountedAt, Released, Incoming;
    forall t: nat | t < |edges|
      ensures CountedAt(edges[t], order + [x], t in ready - {x}, t in future', labels'[t].numUses, t)
    {
      CountedNextAt(edges, order, x, t in ready, t in future, t in future', labels[t], labels'[t], t);
      assert (t in ready - {x}) == (t in ready && t != x);
    }
    forall t: nat | t in (ready - {x}) + future'
      ensures t < |edges|
    {
      assert t in ready + future || t in Woken(Incoming(edges, x, |edges|), labels');
    }
  }

  lemma NoSelfEdge(edges: seq<seq<Edge>>, x: nat)
    requires Forward(edges) && x < |edges|
    ensures CountTo(Incoming(edges, x, |edges|), x) == 0
  {
    CountIncoming(edges, x, |edges|, x);
    CountPositive(edges[x], x);
  }

  lemma TimedNext(edges: seq<seq<Edge>>, order: seq<nat>, x: nat, ready: set<nat>, labels: seq<NodeLabel>, current: nat, begin: map<nat, nat>,
                  labels': seq<NodeLabel>)
    requires Timed(edges, order, ready, labels, current, begin) && x in ready && x < |edges| && |labels'| == |labels|
    requires forall t :: 0 <= t < |labels| ==> Released(labels[t], labels'[t], Incoming(edges, x, |edges|), t)
    requires forall t :: t in ready && t < |labels| ==> CountTo(Incoming(edges, x, |edges|), t) == 0
    ensures var end := current + labels[x].execLatency;
            Timed(edges, order + [x], ready - {x}, labels', end, begin[x := end])
  {
    var end := current + labels[x].execLatency;
    MembersNext(order, x);
    forall t | t in ready - {x}
      ensures t < |edges| && labels'[t].readyCycle <= end + labels'[t].execLatency
    {
      assert Released(labels[t], labels'[t], Incoming(edges, x, |edges|), t);
    }
  }

  // ---- why an instruction begins when it does

  /** The beginning of what was scheduled just before position `p`. */
  function Last(order: seq<nat>, begin: map<nat, nat>, p: nat): nat
    requires p <= |order|
  {
    if p > 0 && order[p - 1] in begin then begin[order[p - 1]] else 0
  }

  /** `c` is the first cycle the edges into what is scheduled allow. */
  ghost predicate ReadyAt(es: seq<Edge>, base: nat, order: seq<nat>, begin: map<nat, nat>, c: nat) {
    && base <= c && (forall e :: e in es && e.head in order ==> e.head in begin && begin[e.head] + e.latency <= c)
    && (c == base || exists e :: e in es && e.head in order && e.head in begin && begin[e.head] + e.latency == c)
  }

  ghost predicate HeadsIn(es: seq<Edge>, order: seq<nat>) {
    forall e :: e in es ==> e.head in order
  }

  /** What was scheduled at `p` follows at once, or as soon as it is ready; and time does
      not pass beyond the first cycle in which something can end. */
  ghost predicate PlacedAt(edges: seq<seq<Edge>>, order: seq<nat>, p: nat, labels: seq<NodeLabel>, begin: map<nat, nat>)
    requires p < |order| && order[p] < |edges| == |labels|
  {
    var x, last := order[p], Last(order, begin, p);
    && x in begin && begin[x] == Larger(last + labels[x].execLatency, labels[x].readyCycle)
    && (begin[x] > last + labels[x].execLatency ==>
          forall y: nat :: y < |edges| && y !in order[..p] && HeadsIn(edges[y], order[..p]) ==>
            begin[x] - labels[x].execLatency + labels[y].execLatency <= labels[y].readyCycle)
  }

  /** Of all that could end by then, what was scheduled at `p` comes first. */
  ghost predicate PickedAt(edges: seq<seq<Edge>>, order: seq<nat>, p: nat, labels: seq<NodeLabel>, begin: map<nat, nat>)
    requires p < |order| && order[p] < |edges| == |labels|
  {
    var x := order[p];
    && x in begin && labels[x].execLatency <= begin[x]
    && forall y: nat :: y < |edges| && y !in order[..p] && HeadsIn(edges[y], order[..p]) ==>
         labels[y].readyCycle <= begin[x] - labels[x].execLatency + labels[y].execLatency ==> ReadyBefore(labels, x, y)
  }

  ghost predicate Picked(edges: seq<seq<Edge>>, base: seq<NodeLabel>, order: seq<nat>, labels: seq<NodeLabel>, begin: map<nat, nat>) {
    && |labels| == |edges| == |base| && Below(order, |edges|)
    && (forall t: nat :: t < |edges| ==> labels[t].cyclesToEnd == base[t].cyclesToEnd)
    && forall p: nat :: p < |order| ==> PickedAt(edges, order, p, labels, begin)
  }

  ghost predicate Greedy(edges: seq<seq<Edge>>, base: seq<NodeLabel>, order: seq<nat>, labels: seq<NodeLabel>, begin: map<nat, nat>) {
    && |labels| == |edges| == |base| && Below(order, |edges|)
    && (forall t: nat :: t < |edges| ==> labels[t].execLatency == base[t].execLatency && ReadyAt(edges[t], base[t].readyCycle, order, begin, labels[t].readyCycle))
    && forall p: nat :: p < |order| ==> PlacedAt(edges, order, p, labels, begin)
  }

  /** Time has only passed as far as the first instruction that can end. */
  ghost predicate Punctual(order: seq<nat>, ready: set<nat>, future: set<nat>, labels: seq<NodeLabel>, current: nat, begin: map<nat, nat>) {
    var last := Last(order, begin, |order|);
    || current == last
    || (current > last && ready + future != {} && forall t :: t in ready + future ==> t < |labels| && FutureKey(labels[t]) >= current)
  }

  /** Behind `x`, instructions whose dependents were all done are not touched. */
  lemma Untouched(edges: seq<seq<Edge>>, order: seq<nat>, x: nat, y: nat, a: NodeLabel, b: NodeLabel)
    requires x < |edges| && y < |edges| && x !in order && HeadsIn(edges[y], order) && Released(a, b, Incoming(edges, x, |edges|), y)
    ensures b == a
  {
    CountIncoming(edges, x, |edges|, y);
    CountPositive(edges[y], x);
    NotAHead(edges[y], order, x);
  }

  lemma NotAHead(es: seq<Edge>, order: seq<nat>, x: nat)
    requires HeadsIn(es, order) && x !in order
    ensures forall k :: 0 <= k < |es| ==> es[k].head != x
  {
    forall k | 0 <= k < |es|
      ensures es[k].head != x
    {
      assert es[k] in es;
    }
  }

  lemma DoneHeads(edges: seq<seq<Edge>>, order: seq<nat>, p: nat)
    requires Scheduled(edges, order) && p < |order|
    ensures HeadsIn(edges[order[p]], order[..p]) && HeadsIn(edges[order[p]], order)
  {
    forall e | e in edges[order[p]]
      ensures e.head in order[..p]
    {
      var k :| 0 <= k < |edges[order[p]]| && edges[order[p]][k] == e;
    }
  }

  lemma ReadyAtNext(edges: seq<seq<Edge>>, order: seq<nat>, x: nat, t: nat, base: nat, begin: map<nat, nat>, end: nat, a: NodeLabel, b: NodeLabel)
    requires x < |edges| && t < |edges| && x !in order && ReadyAt(edges[t], base, order, begin, a.readyCycle)
    requires Raised(a, b, Incoming(edges, x, |edges|), t, end)
    ensures ReadyAt(edges[t], base, order + [x], begin[x := end], b.readyCycle)
  {
    var es, begin', c := Incoming(edges, x, |edges|), begin[x := end], b.readyCycle;
    forall e | e in edges[t] && e.head in order + [x]
      ensures begin'[e.head] + e.latency <= c
    {
      if e.head == x {
        IncomingEdges(edges, x, |edges|, Edge(t, e.latency));
        var k :| 0 <= k < |es| && es[k] == Edge(t, e.latency);
      }
    }
    if c != a.readyCycle {
      var k :| 0 <= k < |es| && es[k].head == t && end + es[k].latency == c;
      IncomingEdges(edges, x, |edges|, es[k]);
      var e := Edge(x, es[k].latency);
      assert e in edges[t] && e.head in order + [x] && begin'[e.head] + e.latency == c;
    } else if c != base {
      var e :| e in edges[t] && e.head in order && e.head in begin && begin[e.head] + e.latency == c;
      assert e.head in order + [x] && begin'[e.head] + e.latency == c;
    }
  }

  lemma PlacedStays(edges: seq<seq<Edge>>, order: seq<nat>, p: nat, x: nat, labels: seq<NodeLabel>, labels': seq<NodeLabel>, begin: map<nat, nat>, end: nat)
    requires Scheduled(edges, order) && p < |order| && |labels| == |labels'| == |edges| && x < |edges| && x !in order
    requires PlacedAt(edges, order, p, labels, begin)
    requires forall t :: 0 <= t < |labels| ==> Released(labels[t], labels'[t], Incoming(edges, x, |edges|), t)
    ensures PlacedAt(edges, order + [x], p, labels', begin[x := end])
  {
    DoneHeads(edges, order, p);
    hide Scheduled, HeadsIn, Released, Incoming, ReadyAt;
    Untouched(edges, order, x, order[p], labels[order[p]], labels'[order[p]]);
    assert (order + [x])[..p] == order[..p];
    if p > 0 { assert order[p - 1] in order; }
    assert order[p] in order;
    forall y: nat | y < |edges| && HeadsIn(edges[y], order[..p])
      ensures labels'[y] == labels[y]
    {
      HeadsMore(edges[y], order, p);
      Untouched(edges, order, x, y, labels[y], labels'[y]);
    }
  }

  lemma HeadsMore(es: seq<Edge>, order: seq<nat>, p: nat)
    requires p <= |order| && HeadsIn(es, order[..p])
    ensures HeadsIn(es, order)
  {
  }

  lemma PlacedNow(edges: seq<seq<Edge>>, order: seq<nat>, x: nat, ready: set<nat>, future: set<nat>, labels: seq<NodeLabel>, labels': seq<NodeLabel>,
                  current: nat, begin: map<nat, nat>)
    requires Counted(edges, order, ready, future, labels) && Timed(edges, order, ready, labels, current, begin)
    requires Punctual(order, ready, future, labels, current, begin) && x in ready
    requires x < |edges| == |labels| == |labels'| && x !in order && Scheduled(edges, order + [x])
    requires forall t :: 0 <= t < |labels| ==> Released(labels[t], labels'[t], Incoming(edges, x, |edges|), t)
    ensures PlacedAt(edges, order + [x], |order|, labels', begin[x := current + labels[x].execLatency])
  {
    hide Scheduled, Counted, Timed, Punctual, Released, Incoming, HeadsIn, FutureKey, Last;
    var order', end := order + [x], current + labels[x].execLatency;
    var last := Last(order, begin, |order|);
    DoneHeads(edges, order', |order|);
    assert order'[..|order|] == order && order'[|order|] == x;
    LastStays(order, x, begin, end);
    PunctualStart(edges, order, x, ready, future, labels, current, begin);
    Untouched(edges, order, x, x, labels[x], labels'[x]);
    if current > last {
      forall y: nat | y < |edges| && y !in order && HeadsIn(edges[y], order)
        ensures current + labels'[y].execLatency <= labels'[y].readyCycle
      {
        Untouched(edges, order, x, y, labels[y], labels'[y]);
        AvailableWaits(edges, order, ready, future, labels, y);
        WaitsLonger(order, ready, future, labels, current, begin, y);
      }
    }
  }

  lemma PickedStays(edges: seq<seq<Edge>>, order: seq<nat>, p: nat, x: nat, labels: seq<NodeLabel>, labels': seq<NodeLabel>, begin: map<nat, nat>, end: nat)
    requires Scheduled(edges, order) && p < |order| && |labels| == |labels'| == |edges| && x < |edges| && x !in order
    requires PickedAt(edges, order, p, labels, begin)
    requires forall t :: 0 <= t < |labels| ==> Released(labels[t], labels'[t], Incoming(edges, x, |edges|), t)
    ensures PickedAt(edges, order + [x], p, labels', begin[x := end])
  {
    DoneHeads(edges, order, p);
    hide Scheduled, HeadsIn, Released, Incoming;
    Untouched(edges, order, x, order[p], labels[order[p]], labels'[order[p]]);
    assert (order + [x])[..p] == order[..p];
    assert order[p] in order;
    forall y: nat | y < |edges| && HeadsIn(edges[y], order[..p])
      ensures labels'[y] == labels[y]
    {
      HeadsMore(edges[y], order, p);
      Untouched(edges, order, x, y, labels[y], labels'[y]);
    }
  }

  lemma PickedNow(edges: seq<seq<Edge>>, order: seq<nat>, x: nat, ready: set<nat>, future: set<nat>, labels: seq<NodeLabel>, labels': seq<NodeLabel>,
                  current: nat, begin: map<nat, nat>)
    requires Counted(edges, order, ready, future, labels) && x in ready
    requires x < |edges| == |labels| == |labels'| && x !in order && Scheduled(edges, order + [x])
    requires forall t :: 0 <= t < |labels| ==> Released(labels[t], labels'[t], Incoming(edges, x, |edges|), t)
    requires forall t :: t in ready ==> t < |labels| && ReadyBefore(labels, x, t)
    requires forall t :: t in future ==> t < |labels| && current < FutureKey(labels[t])
    ensures PickedAt(edges, order + [x], |order|, labels', begin[x := current + labels[x].execLatency])
  {
    hide Scheduled, Counted, Released, Incoming, HeadsIn;
    var order' := order + [x];
    DoneHeads(edges, order', |order|);
    assert order'[..|order|] == order && order'[|order|] == x;
    Untouched(edges, order, x, x, labels[x], labels'[x]);
    forall y: nat | y < |edges| && y !in order && HeadsIn(edges[y], order) && labels'[y].readyCycle <= current + labels'[y].execLatency
      ensures ReadyBefore(labels', x, y)
    {
      Untouched(edges, order, x, y, labels[y], labels'[y]);
      AvailableWaits(edges, order, ready, future, labels, y);
    }
  }

  lemma PickedNext(edges: seq<seq<Edge>>, base: seq<NodeLabel>, order: seq<nat>, x: nat, ready: set<nat>, future: set<nat>,
                   labels: seq<NodeLabel>, labels': seq<NodeLabel>, current: nat, begin: map<nat, nat>)
    requires Scheduled(edges, order) && Counted(edges, order, ready, future, labels) && x in ready && Picked(edges, base, order, labels, begin)
    requires x < |edges| == |labels| == |labels'| && x !in order && Scheduled(edges, order + [x])
    requires forall t :: 0 <= t < |labels| ==> Released(labels[t], labels'[t], Incoming(edges, x, |edges|), t)
    requires forall t :: t in ready ==> t < |labels| && ReadyBefore(labels, x, t)
    requires forall t :: t in future ==> t < |labels| && current < FutureKey(labels[t])
    ensures Picked(edges, base, order + [x], labels', begin[x := current + labels[x].execLatency])
  {
    var end, order' := current + labels[x].execLatency, order + [x];
    forall t: nat | t < |edges|
      ensures labels'[t].cyclesToEnd == base[t].cyclesToEnd
    {
      assert Released(labels[t], labels'[t], Incoming(edges, x, |edges|), t);
    }
    hide Counted, Scheduled, Released, Incoming, PickedAt, ReadyBefore, FutureKey;
    forall p: nat {:trigger PickedAt(edges, order', p, labels', begin[x := end])} | p < |order'|
      ensures PickedAt(edges, order', p, labels', begin[x := end])
    {
      if p < |order| {
        assert order'[p] == order[p] && PickedAt(edges, order, p, labels, begin);
        PickedStays(edges, order, p, x, labels, labels', begin, end);
      } else {
        PickedNow(edges, order, x, ready, future, labels, labels', current, begin);
      }
    }
  }

  lemma LastStays(order: seq<nat>, x: nat, begin: map<nat, nat>, end: nat)
    requires x !in order
    ensures Last(order + [x], begin[x := end], |order|) == Last(order, begin, |order|)
  {
    if |order| > 0 { assert order[|order| - 1] in order; }
  }

  lemma PunctualStart(edges: seq<seq<Edge>>, order: seq<nat>, x: nat, ready: set<nat>, future: set<nat>, labels: seq<NodeLabel>, current: nat,
                      begin: map<nat, nat>)
    requires Timed(edges, order, ready, labels, current, begin) && Punctual(order, ready, future, labels, current, begin) && x in ready
    ensures x < |labels| && Last(order, begin, |order|) <= current
    ensures current + labels[x].execLatency == Larger(Last(order, begin, |order|) + labels[x].execLatency, labels[x].readyCycle)
  {
    assert x in ready + future;
  }

  lemma WaitsLonger(order: seq<nat>, ready: set<nat>, future: set<nat>, labels: seq<NodeLabel>, current: nat, begin: map<nat, nat>, y: nat)
    requires Punctual(order, ready, future, labels, current, begin) && current > Last(order, begin, |order|) && y in ready + future && y < |labels|
    ensures current + labels[y].execLatency <= labels[y].readyCycle
  {
  }

  /** What has all its dependents done waits in one of the heaps. */
  lemma AvailableWaits(edges: seq<seq<Edge>>, order: seq<nat>, ready: set<nat>, future: set<nat>, labels: seq<NodeLabel>, y: nat)
    requires Counted(edges, order, ready, future, labels) && y < |edges| && y !in order && HeadsIn(edges[y], order)
    ensures y in ready + future
  {
    assert CountedAt(edges[y], order, y in ready, y in future, labels[y].numUses, y);
    PendingZero(edges[y], Members(order));
    forall k | 0 <= k < |edges[y]|
      ensures edges[y][k].head in Members(order)
    {
      assert edges[y][k] in edges[y];
    }
  }

  lemma SameExec(edges: seq<seq<Edge>>, base: seq<NodeLabel>, order: seq<nat>, x: nat, labels: seq<NodeLabel>, labels': seq<NodeLabel>, begin: map<nat, nat>)
    requires x < |edges| && |labels| == |labels'| && Greedy(edges, base, order, labels, begin)
    requires forall t :: 0 <= t < |labels| ==> Released(labels[t], labels'[t], Incoming(edges, x, |edges|), t)
    ensures |edges| == |labels| == |base| && Below(order, |edges|)
    ensures forall t: nat :: t < |edges| ==> labels'[t].execLatency == base[t].execLatency && ReadyAt(edges[t], base[t].readyCycle, order, begin, labels[t].readyCycle)
    ensures forall p: nat :: p < |order| ==> PlacedAt(edges, order, p, labels, begin)
  {
    hide ReadyAt, PlacedAt, Incoming;
    forall t: nat | t < |edges|
      ensures labels'[t].execLatency == base[t].execLatency
    {
      assert Released(labels[t], labels'[t], Incoming(edges, x, |edges|), t);
    }
  }

  lemma GreedyNext(edges: seq<seq<Edge>>, base: seq<NodeLabel>, order: seq<nat>, x: nat, ready: set<nat>, future: set<nat>,
                   labels: seq<NodeLabel>, labels': seq<NodeLabel>, current: nat, begin: map<nat, nat>)
    requires Scheduled(edges, order) && Counted(edges, order, ready, future, labels) && Timed(edges, order, ready, labels, current, begin)
    requires Punctual(order, ready, future, labels, current, begin) && x in ready
    requires x < |edges| == |labels| == |labels'| && x !in order && Scheduled(edges, order + [x]) && Greedy(edges, base, order, labels, begin)
    requires forall t :: 0 <= t < |labels| ==> Released(labels[t], labels'[t], Incoming(edges, x, |edges|), t)
    requires forall t :: 0 <= t < |labels| ==> Raised(labels[t], labels'[t], Incoming(edges, x, |edges|), t, current + labels[x].execLatency)
    ensures Greedy(edges, base, order + [x], labels', begin[x := current + labels[x].execLatency])
  {
    hide Counted, Timed, Punctual, Scheduled, Released, Raised, ReadyAt, Incoming, PlacedAt;
    var end, order' := current + labels[x].execLatency, order + [x];
    SameExec(edges, base, order, x, labels, labels', begin);
    forall t: nat | t < |edges|
      ensures ReadyAt(edges[t], base[t].readyCycle, order', begin[x := end], labels'[t].readyCycle)
    {
      ReadyAtNext(edges, order, x, t, base[t].readyCycle, begin, end, labels[t], labels'[t]);
    }
    assert Below(order', |edges|);
    forall p: nat {:trigger PlacedAt(edges, order', p, labels', begin[x := end])} | p < |order'|
      ensures PlacedAt(edges, order', p, labels', begin[x := end])
    {
      if p < |order| {
        assert order'[p] == order[p];
        PlacedStays(edges, order, p, x, labels, labels', begin, end);
      } else {
        PlacedNow(edges, order, x, ready, future, labels, labels', current, begin);
      }
    }
    GreedyIntro(edges, base, order', labels', begin[x := end]);
  }

  lemma GreedyIntro(edges: seq<seq<Edge>>, base: seq<NodeLabel>, order: seq<nat>, labels: seq<NodeLabel>, begin: map<nat, nat>)
    requires |labels| == |edges| == |base| && Below(order, |edges|)
    requires forall t: nat :: t < |edges| ==> labels[t].execLatency == base[t].execLatency
    requires forall t: nat :: t < |edges| ==> ReadyAt(edges[t], base[t].readyCycle, order, begin, labels[t].readyCycle)
    requires forall p: nat :: p < |order| ==> PlacedAt(edges, order, p, labels, begin)
    ensures Greedy(edges, base, order, labels, begin)
  {
    hide ReadyAt, PlacedAt;
  }

  /** The scheduler's state between two decisions. */
  ghost predicate Scheduling(edges: seq<seq<Edge>>, order: seq<nat>, ready: set<nat>, future: set<nat>, labels: seq<NodeLabel>,
                             current: nat, begin: map<nat, nat>)
  {
    Forward(edges) && Scheduled(edges, order) && Counted(edges, order, ready, future, labels) && Timed(edges, order, ready, labels, current, begin)
  }

  ghost predicate ReversedFrom(edges: seq<seq<Edge>>, g: DepGraph)
    reads g`edges
  {
    |g.edges| == |edges| && forall h :: 0 <= h < |edges| ==> g.edges[h] == Incoming(edges, h, |edges|)
  }

  lemma ReleaseReady(edges: seq<seq<Edge>>, order: seq<nat>, ready: set<nat>, future: set<nat>, labels: seq<NodeLabel>,
                     current: nat, begin: map<nat, nat>, x: nat)
    requires Scheduling(edges, order, ready, future, labels, current, begin) && x in ready
    ensures x < |edges| == |labels| && x !in order && Scheduled(edges, order + [x])
    ensures forall k :: 0 <= k < |Incoming(edges, x, |edges|)| ==> Incoming(edges, x, |edges|)[k].head < |labels|
    ensures forall t :: 0 <= t < |labels| ==> CountTo(Incoming(edges, x, |edges|), t) <= labels[t].numUses
    ensures forall t :: t in ready && t < |labels| ==> CountTo(Incoming(edges, x, |edges|), t) == 0
  {
    ScheduledNext(edges, order, x, labels, ready, future);
    forall k | 0 <= k < |Incoming(edges, x, |edges|)|
      ensures Incoming(edges, x, |edges|)[k].head < |labels|
    {
      IncomingTails(edges, x, |edges|, k);
    }
    forall t: nat | t < |labels|
      ensures CountTo(Incoming(edges, x, |edges|), t) <= labels[t].numUses
      ensures t in ready ==> labels[t].numUses == 0
    {
      assert CountedAt(edges[t], order, t in ready, t in future, labels[t].numUses, t);
      UsesEnough(edges, order, x, t);
    }
  }

  /** One instruction takes its place. */
  method ScheduleOne(g: DepGraph, order0: seq<nat>, x: nat, ready0: set<nat>, future0: set<nat>, current0: nat,
                     ghost edges: seq<seq<Edge>>, ghost base: seq<NodeLabel>, ghost begin0: map<nat, nat>)
    returns (order: seq<nat>, ready: set<nat>, future: set<nat>, current: nat, ghost begin: map<nat, nat>)
    requires ReversedFrom(edges, g) && x in ready0 && Scheduling(edges, order0, ready0, future0, g.labels, current0, begin0)
    requires Greedy(edges, base, order0, g.labels, begin0) && Punctual(order0, ready0, future0, g.labels, current0, begin0)
    requires Picked(edges, base, order0, g.labels, begin0)
    requires forall t :: t in ready0 ==> x < |g.labels| && t < |g.labels| && ReadyBefore(g.labels, x, t)
    requires forall t :: t in future0 ==> t < |g.labels| && current0 < FutureKey(g.labels[t])
    modifies g`labels
    ensures Scheduling(edges, order, ready, future, g.labels, current, begin) && order == order0 + [x] && |order| <= |edges|
    ensures Greedy(edges, base, order, g.labels, begin) && Picked(edges, base, order, g.labels, begin) && current == Last(order, begin, |order|)
  {
    hide Picked, ReadyBefore, FutureKey, Scheduled, Counted, Timed, Forward, Greedy, Punctual, Released, Raised, Incoming, Woken, CountTo, Last;
    ReleaseReady(edges, order0, ready0, future0, g.labels, current0, begin0, x);
    ghost var labels0 := g.labels;
    order, ready := order0 + [x], ready0 - {x};
    current := current0 + g.labels[x].execLatency;
    begin := begin0[x := current];
    g.labels, future := Release(g.labels, g.edges[x], current, future0);
    CountedNext(edges, order0, x, ready0, future0, labels0, future, g.labels);
    TimedNext(edges, order0, x, ready0, labels0, current0, begin0, g.labels);
    GreedyNext(edges, base, order0, x, ready0, future0, labels0, g.labels, current0, begin0);
    PickedNext(edges, base, order0, x, ready0, future0, labels0, g.labels, current0, begin0);
    OrderFits(edges, order);
    LastNow(order0, x, begin0, current);
  }

  lemma LastNow(order: seq<nat>, x: nat, begin: map<nat, nat>, end: nat)
    ensures Last(order + [x], begin[x := end], |order| + 1) == end
  {
  }

  lemma OrderFits(edges: seq<seq<Edge>>, order: seq<nat>)
    requires Scheduled(edges, order)
    ensures |order| <= |edges|
  {
    CountMembers(order);
    var all := InOrder(|edges|);
    CountMembers(all);
    forall x | x in Members(order)
      ensures x in Members(all)
    {
      assert all[x] == x;
    }
    Finite.SubsetSize(Members(order), Members(all));
  }

  /** While both heaps are not empty there is work; once they are, all is scheduled:
      the last of what is left would have no uses. */
  lemma AllScheduled(edges: seq<seq<Edge>>, order: seq<nat>, labels: seq<NodeLabel>)
    requires Forward(edges) && Scheduled(edges, order) && Counted(edges, order, {}, {}, labels)
    ensures forall t: nat :: t < |edges| ==> t in order
    ensures |order| == |edges|
  {
    var t: nat := |edges|;
    while t > 0
      invariant t <= |edges| && forall u: nat :: t <= u < |edges| ==> u in order
    {
      t := t - 1;
      assert CountedAt(edges[t], order, false, false, labels[t].numUses, t);
      PendingZero(edges[t], Members(order));
    }
    CountMembers(order);
    var all := InOrder(|edges|);
    CountMembers(all);
    assert Members(order) == Members(all) by {
      forall x: nat | x < |edges|
        ensures x in all
      {
        assert all[x] == x;
      }
    }
  }

  lemma MoveKeeps(edges: seq<seq<Edge>>, order: seq<nat>, ready: set<nat>, future: set<nat>, labels: seq<NodeLabel>,
                  current: nat, begin: map<nat, nat>, t: nat)
    requires Scheduling(edges, order, ready, future, labels, current, begin) && t in future
    requires t < |labels| ==> FutureKey(labels[t]) <= current
    ensures Scheduling(edges, order, ready + {t}, future - {t}, labels, current, begin)
  {
    assert t in ready + future;
    forall u: nat | u < |edges|
      ensures CountedAt(edges[u], order, u in ready + {t}, u in future - {t}, labels[u].numUses, u)
    {
      assert CountedAt(edges[u], order, u in ready, u in future, labels[u].numUses, u);
    }
  }

  lemma HeapsInRange(edges: seq<seq<Edge>>, order: seq<nat>, ready: set<nat>, future: set<nat>, labels: seq<NodeLabel>,
                     current: nat, begin: map<nat, nat>)
    requires Scheduling(edges, order, ready, future, labels, current, begin)
    ensures |labels| == |edges| && forall t :: t in ready || t in future ==> t < |labels|
  {
    assert forall t :: t in ready || t in future ==> t in ready + future;
  }

  /** Move what can end by now to the ready heap. */
  method MoveDue(labels: seq<NodeLabel>, ready0: set<nat>, future0: set<nat>, current: nat,
                 ghost edges: seq<seq<Edge>>, ghost order: seq<nat>, ghost begin: map<nat, nat>)
    returns (ready: set<nat>, future: set<nat>)
    requires Scheduling(edges, order, ready0, future0, labels, current, begin)
    ensures Scheduling(edges, order, ready, future, labels, current, begin)
    ensures ready0 <= ready && future <= future0 && (ready == ready0 ==> future == future0) && ready + future == ready0 + future0
    ensures forall t :: t in future ==> t < |labels| && current < FutureKey(labels[t])
  {
    ready, future := ready0, future0;
    HeapsInRange(edges, order, ready, future, labels, current, begin);
    hide Scheduling;
    while future != {}
      invariant Scheduling(edges, order, ready, future, labels, current, begin)
      invariant ready0 <= ready && future <= future0 && (ready == ready0 ==> future == future0) && ready !! future
      invariant ready + future == ready0 + future0
    {
      HeapsInRange(edges, order, ready, future, labels, current, begin);
      var t := FirstFuture(future, labels);
      if current < FutureKey(labels[t]) { break; }
      MoveKeeps(edges, order, ready, future, labels, current, begin, t);
      ready, future := ready + {t}, future - {t};
    }
    HeapsInRange(edges, order, ready, future, labels, current, begin);
  }

  /** Time passes. */
  lemma LaterKeeps(edges: seq<seq<Edge>>, order: seq<nat>, future: set<nat>, labels: seq<NodeLabel>, current: nat, begin: map<nat, nat>, later: nat)
    requires Scheduling(edges, order, {}, future, labels, current, begin) && current <= later
    ensures Scheduling(edges, order, {}, future, labels, later, begin)
  {
  }

  lemma LaterPunctual(order: seq<nat>, future: set<nat>, labels: seq<NodeLabel>, current: nat, begin: map<nat, nat>, t: nat)
    requires Punctual(order, {}, future, labels, current, begin) && t in future && t < |labels| && current < FutureKey(labels[t])
    requires forall u :: u in future ==> u < |labels| && FutureBefore(labels, t, u)
    ensures Punctual(order, {}, future, labels, FutureKey(labels[t]), begin)
  {
    hide FutureKey;
  }

  lemma SamePunctual(order: seq<nat>, ready: set<nat>, future: set<nat>, ready': set<nat>, future': set<nat>, labels: seq<NodeLabel>, current: nat,
                     begin: map<nat, nat>)
    requires Punctual(order, ready, future, labels, current, begin) && ready' + future' == ready + future
    ensures Punctual(order, ready', future', labels, current, begin)
  {
  }

  lemma StartScheduling(edges: seq<seq<Edge>>, init: seq<nat>, labels: seq<NodeLabel>)
    requires Forward(edges) && |labels| == |edges| && forall i :: 0 <= i < |edges| ==> labels[i].numUses == |edges[i]|
    requires forall i: nat :: i in init <==> i < |edges| && edges[i] == []
    ensures Scheduling(edges, [], {}, Members(init), labels, 0, map[])
  {
    assert Members([]) == {};
    forall t: nat | t < |edges|
      ensures CountedAt(edges[t], [], false, t in Members(init), labels[t].numUses, t)
    {
      PendingNone(edges[t]);
    }
  }

  lemma StartGreedy(edges: seq<seq<Edge>>, labels: seq<NodeLabel>)
    requires |labels| == |edges|
    ensures Greedy(edges, labels, [], labels, map[]) && Picked(edges, labels, [], labels, map[])
  {
  }

  /** `generate_order`, on the reversed graph: all instructions, last first, each
      behind everything that depends on it, beginning as soon as latencies let it. */
  method GenerateOrder(g: DepGraph, init: seq<nat>, ghost edges: seq<seq<Edge>>)
    returns (order: seq<nat>, cycles: nat, ghost begin: map<nat, nat>)
    requires ReversedFrom(edges, g) && Forward(edges) && |g.labels| == |edges|
    requires forall i :: 0 <= i < |edges| ==> g.labels[i].numUses == |edges[i]|
    requires forall i: nat :: i in init <==> i < |edges| && edges[i] == []
    modifies g`labels
    ensures Scheduled(edges, order) && |order| == |edges| && forall t: nat :: t < |edges| ==> t in order
    ensures Greedy(edges, old(g.labels), order, g.labels, begin) && cycles == Last(order, begin, |order|)
    ensures Picked(edges, old(g.labels), order, g.labels, begin)
  {
    ghost var base := g.labels;
    StartScheduling(edges, init, g.labels);
    StartGreedy(edges, g.labels);
    order, cycles, begin := [], 0, map[];
    var ready: set<nat>, future := {}, set i | i in init;
    assert future == Members(init);
    Prompt(order, ready, future, g.labels, cycles, begin);
    hide Scheduled, Counted, Timed, Forward, ReversedFrom, FutureKey, Greedy, Picked, ReadyBefore, Punctual, Last;
    while true
      invariant ReversedFrom(edges, g) && Scheduling(edges, order, ready, future, g.labels, cycles, begin) && |order| <= |edges|
      invariant Greedy(edges, base, order, g.labels, begin) && Punctual(order, ready, future, g.labels, cycles, begin)
      invariant Picked(edges, base, order, g.labels, begin)
      decreases |edges| - |order|, if ready != {} || Due(future, g.labels, cycles) then 0 else 1
    {
      ghost var future0, ready0, cycles0 := future, ready, cycles;
      ready, future := MoveDue(g.labels, ready, future, cycles, edges, order, begin);
      SamePunctual(order, ready0, future0, ready, future, g.labels, cycles, begin);
      if ready != {} {
        HeapsInRange(edges, order, ready, future, g.labels, cycles, begin);
        var x := BestReady(ready, g.labels);
        order, ready, future, cycles, begin := ScheduleOne(g, order, x, ready, future, cycles, edges, base, begin);
        Prompt(order, ready, future, g.labels, cycles, begin);
      } else if future != {} {
        var t := FirstFuture(future, g.labels);
        var later := FutureKey(g.labels[t]);
        LaterKeeps(edges, order, future, g.labels, cycles, begin, later);
        LaterPunctual(order, future, g.labels, cycles, begin, t);
        cycles := later;
        assert Due(future, g.labels, cycles);
      } else {
        break;
      }
    }
    AllScheduled(edges, order, g.labels);
    NothingLeft(order, g.labels, cycles, begin);
  }

  lemma Prompt(order: seq<nat>, ready: set<nat>, future: set<nat>, labels: seq<NodeLabel>, current: nat, begin: map<nat, nat>)
    requires current == Last(order, begin, |order|)
    ensures Punctual(order, ready, future, labels, current, begin)
  {
  }

  lemma NothingLeft(order: seq<nat>, labels: seq<NodeLabel>, current: nat, begin: map<nat, nat>)
    requires Punctual(order, {}, {}, labels, current, begin)
    ensures current == Last(order, begin, |order|)
  {
  }

  ghost predicate Due(future: set<nat>, labels: seq<NodeLabel>, current: nat) {
    exists t :: t in future && t < |labels| && FutureKey(labels[t]) <= current
  }

  // ---------------------------------------------------------------------------
  // One block
  // ---------------------------------------------------------------------------

  lemma EdgesForward(instrs: seq<Instr>, target: Target, edges: seq<seq<Edge>>)
    requires |edges| == |instrs| && forall i :: 0 <= i < |instrs| ==> EdgesOk(instrs, target, i, edges[i])
    ensures Forward(edges)
  {
    forall i, k | 0 <= i < |edges| && 0 <= k < |edges[i]|
      ensures i < edges[i][k].head < |edges|
    {
      assert edges[i][k] in edges[i];
      EdgesAreDepends(instrs, target, i, edges[i][k].head);
      DependsForward(instrs, i, edges[i][k].head);
    }
  }

  function Backwards(s: seq<nat>): seq<nat> {
    seq(|s|, i requires 0 <= i < |s| => s[|s| - 1 - i])
  }

  lemma NoBackEdge(instrs: seq<Instr>, target: Target, edges: seq<seq<Edge>>, rev: seq<nat>, p: nat, q: nat)
    requires |edges| == |instrs| && forall i :: 0 <= i < |instrs| ==> EdgesOk(instrs, target, i, edges[i])
    requires Scheduled(edges, rev) && p < q < |rev|
    ensures !Depends(instrs, rev[p], rev[q])
  {
    hide Depends, EdgeFrom;
    assert rev[p] < |edges|;
    assert EdgesOk(instrs, target, rev[p], edges[rev[p]]);
    EdgesAreDepends(instrs, target, rev[p], rev[q]);
    DoneHeads(edges, rev, p);
    forall e | EdgeFrom(instrs, target, rev[p], e)
      ensures e.head != rev[q]
    {
      assert e in edges[rev[p]];
      var k :| 0 <= k < p && rev[..p][k] == e.head;
      assert rev[k] == e.head;
    }
  }

  lemma BackwardsApart(rev: seq<nat>, n: nat)
    requires Below(rev, n) && NoRepeats(rev)
    ensures Below(Backwards(rev), n) && NoRepeats(Backwards(rev))
  {
  }

  lemma ScheduledBelow(edges: seq<seq<Edge>>, rev: seq<nat>)
    requires Scheduled(edges, rev)
    ensures forall k :: 0 <= k < |rev| ==> rev[k] < |edges|
  {
  }

  lemma NoBackEdgeAt(instrs: seq<Instr>, target: Target, edges: seq<seq<Edge>>, rev: seq<nat>, a: nat, b: nat)
    requires |edges| == |instrs| && forall i :: 0 <= i < |instrs| ==> EdgesOk(instrs, target, i, edges[i])
    requires Scheduled(edges, rev) && |rev| == |edges| && a < b < |rev|
    ensures var order := Backwards(rev); order[b] < |instrs| && !Depends(instrs, order[b], order[a])
  {
    hide EdgesOk, Depends, Scheduled;
    ScheduledBelow(edges, rev);
    NoBackEdge(instrs, target, edges, rev, |rev| - 1 - b, |rev| - 1 - a);
  }

  lemma BackwardsTopological(instrs: seq<Instr>, target: Target, edges: seq<seq<Edge>>, rev: seq<nat>)
    requires |edges| == |instrs| && forall i :: 0 <= i < |instrs| ==> EdgesOk(instrs, target, i, edges[i])
    requires Scheduled(edges, rev) && |rev| == |edges|
    ensures Topological(instrs, Backwards(rev))
  {
    assert Below(rev, |edges|) && NoRepeats(rev);
    hide EdgesOk, Depends, Scheduled, NoRepeats;
    BackwardsApart(rev, |edges|);
    hide Below, Backwards;
    forall a: nat, b: nat | a < b < |rev|
      ensures !Depends(instrs, Backwards(rev)[b], Backwards(rev)[a])
    {
      NoBackEdgeAt(instrs, target, edges, rev, a, b);
    }
  }

  /** The first cycle, counted back from the end of the block, in which instruction
      `i` may begin for the sake of what depends on it. */
  ghost predicate ReadyCycle(instrs: seq<Instr>, target: Target, begin: map<nat, nat>, i: nat, c: nat)
    requires i < |instrs|
  {
    && target.toEnd(i) <= c && (forall e :: EdgeFrom(instrs, target, i, e) ==> e.head in begin && begin[e.head] + e.latency <= c)
    && (c == target.toEnd(i) || exists e :: EdgeFrom(instrs, target, i, e) && e.head in begin && begin[e.head] + e.latency == c)
  }

  /** When the instruction behind position `p` begins. */
  function Next(order: seq<nat>, begin: map<nat, nat>, p: nat): nat {
    if p + 1 < |order| && order[p + 1] in begin then begin[order[p + 1]] else 0
  }

  ghost predicate Free(instrs: seq<Instr>, order: seq<nat>, p: nat, y: nat)
    requires p < |order| && y < |instrs|
  {
    y !in order[p + 1..] && forall j: nat :: Depends(instrs, y, j) ==> j in order[p + 1..]
  }

  /** The instruction at `p` begins right in front of the next one, or as close to it
      as its latencies allow, and then nothing else would have fitted any closer. */
  ghost predicate IssuedAt(instrs: seq<Instr>, target: Target, order: seq<nat>, begin: map<nat, nat>, p: nat)
    requires p < |order| && order[p] < |instrs|
  {
    var x, next := order[p], Next(order, begin, p);
    && x in begin && (exists c: nat :: ReadyCycle(instrs, target, begin, x, c) && begin[x] == Larger(next + target.exec(x), c))
    && (begin[x] > next + target.exec(x) ==> forall y: nat, d: nat ::
          y < |instrs| && Free(instrs, order, p, y) && ReadyCycle(instrs, target, begin, y, d) ==>
            begin[x] - target.exec(x) + target.exec(y) <= d)
  }

  /** The longest sum of latencies from each instruction to the end of the block. */
  ghost predicate Critical(instrs: seq<Instr>, target: Target, depth: seq<nat>) {
    |depth| == |instrs| && forall i: nat :: i < |instrs| ==> CriticalAt(instrs, target, depth, i)
  }

  ghost predicate CriticalAt(instrs: seq<Instr>, target: Target, depth: seq<nat>, i: nat)
    requires i < |instrs| == |depth|
  {
    && (forall e :: EdgeFrom(instrs, target, i, e) ==> e.head < |depth| && depth[e.head] + e.latency <= depth[i])
    && (depth[i] == 0 || exists e :: EdgeFrom(instrs, target, i, e) && e.head < |depth| && depth[e.head] + e.latency == depth[i])
  }

  /** Priority: the longest way, then the last in program order. */
  predicate Prior(target: Target, depth: seq<nat>, x: nat, y: nat)
    requires x < |depth| && y < |depth|
  {
    depth[x] + target.exec(x) > depth[y] + target.exec(y) || (depth[x] + target.exec(x) == depth[y] + target.exec(y) && x >= y)
  }

  /** No instruction that could have taken place `p` by then comes before the one there. */
  ghost predicate FirstAt(instrs: seq<Instr>, target: Target, order: seq<nat>, begin: map<nat, nat>, depth: seq<nat>, p: nat)
    requires p < |order| && order[p] < |instrs| == |depth|
  {
    var x := order[p];
    && x in begin && target.exec(x) <= begin[x]
    && forall y: nat, d: nat :: y < |instrs| && Free(instrs, order, p, y) && ReadyCycle(instrs, target, begin, y, d) ==>
         d <= begin[x] - target.exec(x) + target.exec(y) ==> Prior(target, depth, x, y)
  }

  ghost predicate Prioritized(instrs: seq<Instr>, target: Target, order: seq<nat>, begin: map<nat, nat>, depth: seq<nat>) {
    && |depth| == |instrs| && Below(order, |instrs|)
    && forall p: nat :: p < |order| ==> FirstAt(instrs, target, order, begin, depth, p)
  }

  /** `begin` is the schedule of `order`, `cycles` its length. */
  ghost predicate Timing(instrs: seq<Instr>, target: Target, order: seq<nat>, begin: map<nat, nat>, cycles: nat) {
    && |order| == |instrs| && Below(order, |instrs|) && (forall p: nat :: p < |order| ==> IssuedAt(instrs, target, order, begin, p))
    && cycles == if order != [] && order[0] in begin then begin[order[0]] else 0
  }

  /** Each hazard has its latency. */
  lemma TimingMeets(instrs: seq<Instr>, target: Target, order: seq<nat>, begin: map<nat, nat>, cycles: nat, i: nat, e: Edge)
    requires Topological(instrs, order) && Timing(instrs, target, order, begin, cycles) && i < |instrs| && EdgeFrom(instrs, target, i, e)
    ensures i in begin && e.head in begin && begin[e.head] + e.latency <= begin[i]
  {
    EveryIndex(order, |instrs|, i);
    var p :| 0 <= p < |order| && order[p] == i;
    assert IssuedAt(instrs, target, order, begin, p);
  }

  /** And all of it lies within the cycles. */
  lemma {:induction false} TimingBounds(instrs: seq<Instr>, target: Target, order: seq<nat>, begin: map<nat, nat>, cycles: nat, p: nat)
    requires Timing(instrs, target, order, begin, cycles) && p < |order|
    ensures order[p] in begin && begin[order[p]] <= cycles
  {
    assert IssuedAt(instrs, target, order, begin, p);
    if p > 0 {
      assert IssuedAt(instrs, target, order, begin, p - 1);
      TimingBounds(instrs, target, order, begin, cycles, p - 1);
    }
  }

  lemma ReadyUnique(instrs: seq<Instr>, target: Target, begin: map<nat, nat>, i: nat, c: nat, d: nat)
    requires i < |instrs| && ReadyCycle(instrs, target, begin, i, c) && ReadyCycle(instrs, target, begin, i, d)
    ensures c == d
  {
  }

  lemma ReadyFromLabel(instrs: seq<Instr>, target: Target, es: seq<Edge>, i: nat, rev: seq<nat>, begin: map<nat, nat>, c: nat)
    requires i < |instrs| && EdgesOk(instrs, target, i, es) && ReadyAt(es, target.toEnd(i), rev, begin, c) && HeadsIn(es, rev)
    ensures ReadyCycle(instrs, target, begin, i, c)
  {
  }

  lemma FreeHeads(instrs: seq<Instr>, target: Target, es: seq<Edge>, y: nat, order: seq<nat>, p: nat)
    requires y < |instrs| && p < |order| && EdgesOk(instrs, target, y, es) && Free(instrs, order, p, y)
    ensures forall e :: e in es ==> e.head in order[p + 1..]
  {
    hide EdgeFrom, Depends;
    forall e | e in es
      ensures e.head in order[p + 1..]
    {
      assert EdgeFrom(instrs, target, y, e);
      EdgesAreDepends(instrs, target, y, e.head);
    }
  }

  lemma BackwardsTail(rev: seq<nat>, p: nat)
    requires p < |rev|
    ensures Backwards(rev)[p + 1..] == Backwards(rev[..|rev| - 1 - p])
  {
  }

  lemma NextIsLast(rev: seq<nat>, begin: map<nat, nat>, p: nat)
    requires p < |rev|
    ensures |Backwards(rev)| == |rev| && Backwards(rev)[p] == rev[|rev| - 1 - p] && Next(Backwards(rev), begin, p) == Last(rev, begin, |rev| - 1 - p)
  {
  }

  lemma BackwardsMembers(s: seq<nat>)
    ensures forall x :: x in Backwards(s) <==> x in s
  {
    forall x | x in s
      ensures x in Backwards(s)
    {
      var k :| 0 <= k < |s| && s[k] == x;
      assert Backwards(s)[|s| - 1 - k] == x;
    }
  }

  /** What the graph has of the block. */
  ghost predicate GraphOf(instrs: seq<Instr>, target: Target, edges: seq<seq<Edge>>, base: seq<NodeLabel>) {
    && |edges| == |instrs| == |base|
    && (forall i: nat :: i < |instrs| ==> EdgesOk(instrs, target, i, edges[i]))
    && forall i: nat :: i < |instrs| ==> base[i].readyCycle == target.toEnd(i) && base[i].execLatency == target.exec(i)
  }

  lemma LabelIsReady(instrs: seq<Instr>, target: Target, edges: seq<seq<Edge>>, base: seq<NodeLabel>, rev: seq<nat>, labels: seq<NodeLabel>,
                     begin: map<nat, nat>, y: nat)
    requires GraphOf(instrs, target, edges, base) && Greedy(edges, base, rev, labels, begin) && Scheduled(edges, rev) && |rev| == |edges| && y < |instrs|
    requires forall t: nat :: t < |edges| ==> t in rev
    ensures ReadyCycle(instrs, target, begin, y, labels[y].readyCycle) && labels[y].execLatency == target.exec(y)
  {
    assert y in rev;
    var p :| 0 <= p < |rev| && rev[p] == y;
    DoneHeads(edges, rev, p);
    hide EdgesOk, ReadyAt, HeadsIn, ReadyCycle, PlacedAt;
    ReadyFromLabel(instrs, target, edges[y], y, rev, begin, labels[y].readyCycle);
  }

  lemma IssuedFromPlaced(instrs: seq<Instr>, target: Target, edges: seq<seq<Edge>>, base: seq<NodeLabel>, rev: seq<nat>, labels: seq<NodeLabel>,
                         begin: map<nat, nat>, p: nat)
    requires GraphOf(instrs, target, edges, base) && Greedy(edges, base, rev, labels, begin) && Scheduled(edges, rev) && |rev| == |edges| && p < |rev|
    requires forall t: nat :: t < |edges| ==> t in rev
    ensures Backwards(rev)[p] < |instrs| && IssuedAt(instrs, target, Backwards(rev), begin, p)
  {
    hide Scheduled, Free, ReadyCycle, Backwards, GraphOf, Last, Next, ReadyAt, HeadsIn;
    var order, q := Backwards(rev), |rev| - 1 - p;
    GraphSize(instrs, target, edges, base);
    NextIsLast(rev, begin, p);
    assert PlacedAt(edges, rev, q, labels, begin) && |order| == |rev|;
    var x, next := order[p], Next(order, begin, p);
    LabelIsReady(instrs, target, edges, base, rev, labels, begin, x);
    if begin[x] > next + target.exec(x) {
      forall y: nat, d: nat | y < |instrs| && Free(instrs, order, p, y) && ReadyCycle(instrs, target, begin, y, d)
        ensures begin[x] - target.exec(x) + target.exec(y) <= d
      {
        FreeIsAvailable(instrs, target, edges, base, rev, p, y);
        LabelIsReady(instrs, target, edges, base, rev, labels, begin, y);
        ReadyUnique(instrs, target, begin, y, d, labels[y].readyCycle);
      }
    }
  }

  lemma FreeIsAvailable(instrs: seq<Instr>, target: Target, edges: seq<seq<Edge>>, base: seq<NodeLabel>, rev: seq<nat>, p: nat, y: nat)
    requires GraphOf(instrs, target, edges, base) && p < |rev| && y < |instrs| && Free(instrs, Backwards(rev), p, y)
    ensures y !in rev[..|rev| - 1 - p] && HeadsIn(edges[y], rev[..|rev| - 1 - p])
  {
    BackwardsTail(rev, p);
    BackwardsMembers(rev[..|rev| - 1 - p]);
    hide EdgesOk;
    FreeHere(instrs, Backwards(rev), p, y);
    FreeHeads(instrs, target, edges[y], y, Backwards(rev), p);
  }

  lemma FreeHere(instrs: seq<Instr>, order: seq<nat>, p: nat, y: nat)
    requires p < |order| && y < |instrs| && Free(instrs, order, p, y)
    ensures y !in order[p + 1..]
  {
  }

  lemma TimingFromGreedy(instrs: seq<Instr>, target: Target, edges: seq<seq<Edge>>, base: seq<NodeLabel>, rev: seq<nat>, labels: seq<NodeLabel>,
                         begin: map<nat, nat>)
    requires GraphOf(instrs, target, edges, base) && Greedy(edges, base, rev, labels, begin) && Scheduled(edges, rev) && |rev| == |edges|
    requires forall t: nat :: t < |edges| ==> t in rev
    ensures Timing(instrs, target, Backwards(rev), begin, Last(rev, begin, |rev|))
  {
    assert |Backwards(rev)| == |rev| && (rev != [] ==> Backwards(rev)[0] == rev[|rev| - 1]);
    hide GraphOf, Greedy, IssuedAt, Backwards;
    assert |edges| == |instrs| by { GraphSize(instrs, target, edges, base); }
    forall p: nat | p < |rev|
      ensures Backwards(rev)[p] < |instrs| && IssuedAt(instrs, target, Backwards(rev), begin, p)
    {
      IssuedFromPlaced(instrs, target, edges, base, rev, labels, begin, p);
    }
  }

  lemma CriticalFromGraph(instrs: seq<Instr>, target: Target, edges: seq<seq<Edge>>, base: seq<NodeLabel>, depth: seq<nat>)
    requires |edges| == |instrs| == |base| == |depth| && forall i: nat :: i < |instrs| ==> EdgesOk(instrs, target, i, edges[i])
    requires forall i: nat :: i < |instrs| ==> StatOk(edges, base, i) && depth[i] == base[i].cyclesToEnd
    ensures Critical(instrs, target, depth)
  {
    forall i: nat | i < |instrs|
      ensures CriticalAt(instrs, target, depth, i)
    {
      assert EdgesOk(instrs, target, i, edges[i]) && StatOk(edges, base, i);
      CriticalFromLongest(instrs, target, edges[i], base, depth, i);
    }
  }

  lemma CriticalFromLongest(instrs: seq<Instr>, target: Target, es: seq<Edge>, base: seq<NodeLabel>, depth: seq<nat>, i: nat)
    requires i < |instrs| == |base| == |depth| && EdgesOk(instrs, target, i, es) && Longest(es, base, depth[i])
    requires forall j: nat :: j < |base| ==> depth[j] == base[j].cyclesToEnd
    ensures CriticalAt(instrs, target, depth, i)
  {
    hide EdgeFrom;
    forall e | EdgeFrom(instrs, target, i, e)
      ensures e.head < |depth| && depth[e.head] + e.latency <= depth[i]
    {
      var k :| 0 <= k < |es| && es[k] == e;
    }
    if depth[i] != 0 {
      var k :| 0 <= k < |es| && es[k].head < |base| && base[es[k].head].cyclesToEnd + es[k].latency == depth[i];
      assert EdgeFrom(instrs, target, i, es[k]);
    }
  }

  lemma FirstFromPicked(instrs: seq<Instr>, target: Target, edges: seq<seq<Edge>>, base: seq<NodeLabel>, rev: seq<nat>, labels: seq<NodeLabel>,
                        begin: map<nat, nat>, depth: seq<nat>, p: nat)
    requires GraphOf(instrs, target, edges, base) && Greedy(edges, base, rev, labels, begin) && Scheduled(edges, rev) && |rev| == |edges| && p < |rev|
    requires (forall t: nat :: t < |edges| ==> t in rev) && Picked(edges, base, rev, labels, begin)
    requires |depth| == |edges| == |base| && forall i: nat :: i < |edges| ==> depth[i] == base[i].cyclesToEnd
    ensures Backwards(rev)[p] < |instrs| == |depth| && FirstAt(instrs, target, Backwards(rev), begin, depth, p)
  {
    hide Scheduled, Free, ReadyCycle, Backwards, GraphOf, Greedy, HeadsIn;
    var order, q := Backwards(rev), |rev| - 1 - p;
    GraphSize(instrs, target, edges, base);
    NextIsLast(rev, begin, p);
    assert PickedAt(edges, rev, q, labels, begin);
    var x := order[p];
    LabelIsReady(instrs, target, edges, base, rev, labels, begin, x);
    forall y: nat, d: nat | y < |instrs| && Free(instrs, order, p, y) && ReadyCycle(instrs, target, begin, y, d)
      ensures d <= begin[x] - target.exec(x) + target.exec(y) ==> Prior(target, depth, x, y)
    {
      FreeIsAvailable(instrs, target, edges, base, rev, p, y);
      LabelIsReady(instrs, target, edges, base, rev, labels, begin, y);
      ReadyUnique(instrs, target, begin, y, d, labels[y].readyCycle);
    }
  }

  lemma PrioritizedFromPicked(instrs: seq<Instr>, target: Target, edges: seq<seq<Edge>>, base: seq<NodeLabel>, rev: seq<nat>, labels: seq<NodeLabel>,
                              begin: map<nat, nat>, depth: seq<nat>)
    requires GraphOf(instrs, target, edges, base) && Greedy(edges, base, rev, labels, begin) && Scheduled(edges, rev) && |rev| == |edges|
    requires (forall t: nat :: t < |edges| ==> t in rev) && Picked(edges, base, rev, labels, begin)
    requires |depth| == |edges| == |base| && forall i: nat :: i < |edges| ==> depth[i] == base[i].cyclesToEnd
    ensures Prioritized(instrs, target, Backwards(rev), begin, depth)
  {
    assert |Backwards(rev)| == |rev|;
    hide GraphOf, Greedy, FirstAt, Backwards, Picked, Scheduled;
    assert |edges| == |instrs| by { GraphSize(instrs, target, edges, base); }
    forall p: nat | p < |rev|
      ensures Backwards(rev)[p] < |instrs| && FirstAt(instrs, target, Backwards(rev), begin, depth, p)
    {
      FirstFromPicked(instrs, target, edges, base, rev, labels, begin, depth, p);
    }
  }

  lemma GraphSize(instrs: seq<Instr>, target: Target, edges: seq<seq<Edge>>, base: seq<NodeLabel>)
    requires GraphOf(instrs, target, edges, base)
    ensures |edges| == |instrs| == |base|
  {
  }

  /** `sched_buffer`: the block's instructions in an order that respects every
      dependency, each as close to the end as its latencies and what follows let it
      be, in exactly the cycles it reports. */
  method SchedBuffer(instrs: seq<Instr>, target: Target)
    returns (code: seq<Instr>, order: seq<nat>, cycles: nat, ghost begin: map<nat, nat>, ghost depth: seq<nat>)
    ensures Topological(instrs, order) && |code| == |instrs|
    ensures forall k :: 0 <= k < |order| ==> code[k] == instrs[order[k]]
    ensures Timing(instrs, target, order, begin, cycles)
    ensures Critical(instrs, target, depth) && Prioritized(instrs, target, order, begin, depth)
  {
    var g := GenerateDepGraph(instrs, target);
    ghost var edges, labels := g.edges, g.labels;
    EdgesForward(instrs, target, edges);
    hide EdgesOk, Topological, Timing, Greedy, Picked, Scheduled, Below, Backwards, StatOk, Critical, Prioritized;
    ghost var base;
    order, cycles, begin, base := OrderGraph(g, edges);
    BackwardsTopological(instrs, target, edges, order);
    assert GraphOf(instrs, target, edges, base);
    TimingFromGreedy(instrs, target, edges, base, order, g.labels, begin);
    depth := seq(|base|, i requires 0 <= i < |base| => base[i].cyclesToEnd);
    CriticalFromGraph(instrs, target, edges, base, depth);
    PrioritizedFromPicked(instrs, target, edges, base, order, g.labels, begin, depth);
    order := Backwards(order);
    TopologicalBelow(instrs, order);
    code := seq(|order|, k requires 0 <= k < |order| => instrs[order[k]]);
  }

  method OrderGraph(g: DepGraph, ghost edges: seq<seq<Edge>>) returns (rev: seq<nat>, cycles: nat, ghost begin: map<nat, nat>, ghost base: seq<NodeLabel>)
    requires g.edges == edges && |g.labels| == |edges| && Forward(edges)
    modifies g
    ensures Scheduled(edges, rev) && |rev| == |edges| && forall t: nat :: t < |edges| ==> t in rev
    ensures SameTimes(old(g.labels), base) && Greedy(edges, base, rev, g.labels, begin) && cycles == Last(rev, begin, |rev|)
    ensures Picked(edges, base, rev, g.labels, begin) && forall i: nat :: i < |edges| ==> StatOk(edges, base, i)
  {
    hide Forward, Longest, Scheduled, Greedy, Picked, StatOk, Incoming;
    var init := CalcStatistics(g);
    base := g.labels;
    Reverse(g);
    rev, cycles, begin := GenerateOrder(g, init, edges);
  }

  lemma TopologicalBelow(instrs: seq<Instr>, order: seq<nat>)
    requires Topological(instrs, order)
    ensures |order| == |instrs| && forall k :: 0 <= k < |order| ==> order[k] < |instrs|
  {
  }

  // ---------------------------------------------------------------------------
  // There is only one such schedule
  // ---------------------------------------------------------------------------

  lemma {:induction false} CriticalFrom(instrs: seq<Instr>, target: Target, a: seq<nat>, b: seq<nat>, i: nat)
    requires Critical(instrs, target, a) && Critical(instrs, target, b) && i <= |instrs|
    ensures forall j: nat :: i <= j < |instrs| ==> a[j] == b[j]
    decreases |instrs| - i
  {
    if i < |instrs| {
      CriticalFrom(instrs, target, a, b, i + 1);
      assert CriticalAt(instrs, target, a, i) && CriticalAt(instrs, target, b, i);
      hide EdgeFrom, Depends;
      forall e | EdgeFrom(instrs, target, i, e)
        ensures i < e.head
      {
        EdgesAreDepends(instrs, target, i, e.head);
        DependsForward(instrs, i, e.head);
      }
    }
  }

  /** What is scheduled behind position `p`, and when. */
  ghost predicate SameBehind(a: seq<nat>, begin: map<nat, nat>, b: seq<nat>, begin': map<nat, nat>, p: nat) {
    && p <= |a| == |b| && a[p..] == b[p..]
    && forall x :: x in a[p..] ==> x in begin && x in begin' && begin[x] == begin'[x]
  }

  lemma TopologicalFree(instrs: seq<Instr>, order: seq<nat>, p: nat)
    requires Topological(instrs, order) && p < |order|
    ensures order[p] < |instrs| && Free(instrs, order, p, order[p])
  {
    TopologicalBelow(instrs, order);
    var x := order[p];
    forall j: nat | Depends(instrs, x, j)
      ensures j in order[p + 1..]
    {
      DependsForward(instrs, x, j);
      EveryIndex(order, |instrs|, j);
      var q :| 0 <= q < |order| && order[q] == j;
      assert q != p;
      assert q > p ==> order[p + 1..][q - p - 1] == j;
    }
    assert forall q: nat :: p + 1 <= q < |order| ==> order[q] != x;
    var tail := order[p + 1..];
    assert forall q: nat :: q < |tail| ==> tail[q] != x;
  }

  lemma SameFree(instrs: seq<Instr>, a: seq<nat>, begin: map<nat, nat>, b: seq<nat>, begin': map<nat, nat>, p: nat, y: nat)
    requires p < |a| == |b| && SameBehind(a, begin, b, begin', p + 1) && y < |instrs| && Free(instrs, a, p, y)
    ensures Free(instrs, b, p, y)
  {
  }

  lemma SameReady(instrs: seq<Instr>, target: Target, a: seq<nat>, begin: map<nat, nat>, b: seq<nat>, begin': map<nat, nat>, p: nat, y: nat, c: nat)
    requires p < |a| == |b| && SameBehind(a, begin, b, begin', p + 1) && y < |instrs| && Free(instrs, a, p, y) && ReadyCycle(instrs, target, begin, y, c)
    ensures ReadyCycle(instrs, target, begin', y, c)
  {
    hide EdgeFrom, Depends;
    forall e | EdgeFrom(instrs, target, y, e)
      ensures e.head in a[p + 1..]
    {
      EdgesAreDepends(instrs, target, y, e.head);
    }
  }

  lemma SameNext(a: seq<nat>, begin: map<nat, nat>, b: seq<nat>, begin': map<nat, nat>, p: nat)
    requires p < |a| == |b| && SameBehind(a, begin, b, begin', p + 1)
    ensures Next(a, begin, p) == Next(b, begin', p)
  {
    if p + 1 < |a| {
      assert a[p + 1..][0] == a[p + 1] && b[p + 1..][0] == b[p + 1];
    }
  }

  /** The cycle in which `order[p]` ends, and when it is ready. */
  lemma EndsAt(instrs: seq<Instr>, target: Target, order: seq<nat>, begin: map<nat, nat>, p: nat) returns (end: nat, c: nat)
    requires Topological(instrs, order) && p < |order| && order[p] < |instrs| && IssuedAt(instrs, target, order, begin, p)
    ensures order[p] in begin && begin[order[p]] == end + target.exec(order[p]) && ReadyCycle(instrs, target, begin, order[p], c)
    ensures Next(order, begin, p) <= end && c <= end + target.exec(order[p])
    ensures end == Next(order, begin, p) || end + target.exec(order[p]) == c
    ensures end > Next(order, begin, p) ==> forall y: nat, d: nat ::
              y < |instrs| && Free(instrs, order, p, y) && ReadyCycle(instrs, target, begin, y, d) ==> end + target.exec(y) <= d
  {
    hide Topological, Free, ReadyCycle;
    c :| ReadyCycle(instrs, target, begin, order[p], c) && begin[order[p]] == Larger(Next(order, begin, p) + target.exec(order[p]), c);
    end := begin[order[p]] - target.exec(order[p]);
  }

  lemma NotLater(instrs: seq<Instr>, target: Target, a: seq<nat>, begin: map<nat, nat>, b: seq<nat>, begin': map<nat, nat>, p: nat)
    requires Topological(instrs, a) && Topological(instrs, b) && p < |a| == |b| && SameBehind(a, begin, b, begin', p + 1)
    requires a[p] < |instrs| && b[p] < |instrs| && IssuedAt(instrs, target, a, begin, p) && IssuedAt(instrs, target, b, begin', p)
    ensures a[p] in begin && b[p] in begin' && begin[a[p]] - target.exec(a[p]) <= begin'[b[p]] - target.exec(b[p])
  {
    TopologicalFree(instrs, b, p);
    var endA, c := EndsAt(instrs, target, a, begin, p);
    var endB, d := EndsAt(instrs, target, b, begin', p);
    SameNext(a, begin, b, begin', p);
    SameFree(instrs, b, begin', a, begin, p, b[p]);
    SameReady(instrs, target, b, begin', a, begin, p, b[p], d);
    hide Topological, Free, ReadyCycle, IssuedAt, SameBehind, Next;
  }

  lemma SamePick(instrs: seq<Instr>, target: Target, a: seq<nat>, begin: map<nat, nat>, b: seq<nat>, begin': map<nat, nat>, depth: seq<nat>, p: nat)
    requires Topological(instrs, a) && Topological(instrs, b) && p < |a| == |b| && SameBehind(a, begin, b, begin', p + 1)
    requires a[p] < |instrs| == |depth| && b[p] < |instrs| && IssuedAt(instrs, target, a, begin, p) && IssuedAt(instrs, target, b, begin', p)
    requires FirstAt(instrs, target, a, begin, depth, p)
    requires begin[a[p]] - target.exec(a[p]) == begin'[b[p]] - target.exec(b[p])
    ensures Prior(target, depth, a[p], b[p])
  {
    TopologicalFree(instrs, b, p);
    var endB, d := EndsAt(instrs, target, b, begin', p);
    SameFree(instrs, b, begin', a, begin, p, b[p]);
    SameReady(instrs, target, b, begin', a, begin, p, b[p], d);
    hide Topological, Free, ReadyCycle, IssuedAt, SameBehind, Prior;
  }

  lemma SameTail(s: seq<nat>, p: nat)
    requires p < |s|
    ensures s[p..] == [s[p]] + s[p + 1..]
  {
  }

  lemma {:induction false} SameFrom(instrs: seq<Instr>, target: Target, a: seq<nat>, begin: map<nat, nat>, b: seq<nat>, begin': map<nat, nat>,
                                    depth: seq<nat>, cycles: nat, cycles': nat, p: nat)
    requires Topological(instrs, a) && Timing(instrs, target, a, begin, cycles) && Prioritized(instrs, target, a, begin, depth)
    requires Topological(instrs, b) && Timing(instrs, target, b, begin', cycles') && Prioritized(instrs, target, b, begin', depth)
    requires p <= |instrs|
    ensures SameBehind(a, begin, b, begin', p)
    decreases |instrs| - p
  {
    if p < |instrs| {
      SameFrom(instrs, target, a, begin, b, begin', depth, cycles, cycles', p + 1);
      assert IssuedAt(instrs, target, a, begin, p) && IssuedAt(instrs, target, b, begin', p);
      assert FirstAt(instrs, target, a, begin, depth, p) && FirstAt(instrs, target, b, begin', depth, p);
      NotLater(instrs, target, a, begin, b, begin', p);
      NotLater(instrs, target, b, begin', a, begin, p);
      SamePick(instrs, target, a, begin, b, begin', depth, p);
      SamePick(instrs, target, b, begin', a, begin, depth, p);
      SameTail(a, p);
      SameTail(b, p);
    }
  }

  /** The contract of `SchedBuffer` leaves it no choice: whatever meets it has the same
      order, the same starts and the same number of cycles. */
  lemma ScheduleUnique(instrs: seq<Instr>, target: Target, a: seq<nat>, begin: map<nat, nat>, cycles: nat, depth: seq<nat>,
                       b: seq<nat>, begin': map<nat, nat>, cycles': nat, depth': seq<nat>)
    requires Topological(instrs, a) && Timing(instrs, target, a, begin, cycles) && Critical(instrs, target, depth) && Prioritized(instrs, target, a, begin, depth)
    requires Topological(instrs, b) && Timing(instrs, target, b, begin', cycles') && Critical(instrs, target, depth') && Prioritized(instrs, target, b, begin', depth')
    ensures a == b && cycles == cycles' && forall x: nat :: x < |instrs| ==> x in begin && x in begin' && begin[x] == begin'[x]
  {
    CriticalFrom(instrs, target, depth, depth', 0);
    assert depth == depth';
    SameFrom(instrs, target, a, begin, b, begin', depth, cycles, cycles', 0);
    assert a[0..] == a && b[0..] == b;
    TopologicalBelow(instrs, a);
    hide Prioritized, Critical;
    forall x: nat | x < |instrs|
      ensures x in a
    {
      EveryIndex(a, |instrs|, x);
    }
    if a != [] { assert a[0] in a; }
  }

  // ---------------------------------------------------------------------------
  // A guard that does move
  // ---------------------------------------------------------------------------

  /** A target on which the second instruction has to begin early. */
  function EarlyTarget(): Target {
    Target((h, r, i, j) => 0, i => 1, i => if i == 1 then 5 else 0)
  }

  /** The scheduler puts the write of the guard in front of the instruction it guards. */
  method EmitsMoved() returns (order: seq<nat>)
    ensures order == [1, 0]
    ensures Run(GuardBlock(), order, State(map[], [])) != Run(GuardBlock(), InOrder(2), State(map[], []))
  {
    GuardMayMove();
    GuardSize();
    var code, cycles;
    ghost var begin, depth;
    code, order, cycles, begin, depth := SchedBuffer(GuardBlock(), EarlyTarget());
    NotInOrder(order, begin, cycles);
  }

  lemma NotInOrder(order: seq<nat>, begin: map<nat, nat>, cycles: nat)
    requires Topological(GuardBlock(), order) && Timing(GuardBlock(), EarlyTarget(), order, begin, cycles)
    ensures order == [1, 0]
  {
    GuardSize();
    NoEdges(0);
    assert ReadyCycle(GuardBlock(), EarlyTarget(), begin, 0, 0);
    assert IssuedAt(GuardBlock(), EarlyTarget(), order, begin, 1);
    assert order[1] == 1 ==> Free(GuardBlock(), order, 1, 0);
  }

  lemma NoEdges(i: nat)
    requires i < 2
    ensures |GuardBlock()| == 2 && forall j: nat :: !Depends(GuardBlock(), i, j)
    ensures forall e :: !EdgeFrom(GuardBlock(), EarlyTarget(), i, e)
  {
    GuardSize();
    GuardHasNoEdge();
    hide Depends, EdgeFrom, GuardBlock;
    forall j: nat
      ensures !Depends(GuardBlock(), i, j)
    {
      if Depends(GuardBlock(), i, j) { DependsForward(GuardBlock(), i, j); }
    }
    forall e: Edge
      ensures !EdgeFrom(GuardBlock(), EarlyTarget(), i, e)
    {
      EdgesAreDepends(GuardBlock(), EarlyTarget(), i, e.head);
    }
  }
}
