/** `lower_par_copies.rs`: a simultaneous copy becomes a sequence of copies and
    swaps by way of a graph whose edges say which register is read by which. */
module LowerParCopies {
  import opened Wrappers
  import opened Ir
  import LowerCopySwap
  import opened Finite

  /** `src` is -1 for a node that no longer waits for a value. */
  datatype CopyNode = CopyNode(numReads: nat, src: int)

  ghost function Readers(nodes: seq<CopyNode>, v: int): set<int> {
    set d: int | 0 <= d < |nodes| && nodes[d].src == v
  }

  ghost function Linked(nodes: seq<CopyNode>): set<int> {
    set d: int | 0 <= d < |nodes| && nodes[d].src >= 0
  }

  /** The read counts of the first `n` nodes are right. */
  ghost predicate Counted(nodes: seq<CopyNode>, n: nat)
    requires n <= |nodes|
  {
    n == 0 || (nodes[n - 1].numReads == |Readers(nodes, n - 1)| && Counted(nodes, n - 1))
  }

  ghost predicate WellFormed(nodes: seq<CopyNode>) {
    && (forall d :: 0 <= d < |nodes| ==> -1 <= nodes[d].src < |nodes| && nodes[d].src != d)
    && Counted(nodes, |nodes|)
  }

  lemma {:induction false} CountedAt(nodes: seq<CopyNode>, n: nat, v: nat)
    requires v < n <= |nodes| && Counted(nodes, n)
    ensures nodes[v].numReads == |Readers(nodes, v)|
  {
    if v < n - 1 { CountedAt(nodes, n - 1, v); }
  }

  lemma {:induction false} CountedIntro(nodes: seq<CopyNode>, n: nat)
    requires n <= |nodes| && forall v :: 0 <= v < n ==> nodes[v].numReads == |Readers(nodes, v)|
    ensures Counted(nodes, n)
  {
    if n > 0 { CountedIntro(nodes, n - 1); }
  }

  function Link(nodes: seq<CopyNode>, d: nat, v: nat): seq<CopyNode>
    requires d < |nodes| && v < |nodes| && d != v
  {
    nodes[d := nodes[d].(src := v)][v := nodes[v].(numReads := nodes[v].numReads + 1)]
  }

  function Unlink(nodes: seq<CopyNode>, d: nat): seq<CopyNode>
    requires d < |nodes| && 0 <= nodes[d].src < |nodes| && nodes[d].src != d
    requires nodes[nodes[d].src].numReads > 0
  {
    var v := nodes[d].src;
    nodes[d := nodes[d].(src := -1)][v := nodes[v].(numReads := nodes[v].numReads - 1)]
  }

  lemma HasReads(nodes: seq<CopyNode>, d: nat)
    requires WellFormed(nodes) && d < |nodes| && nodes[d].src >= 0
    ensures nodes[nodes[d].src].numReads > 0
  {
    CountedAt(nodes, |nodes|, nodes[d].src);
    assert d in Readers(nodes, nodes[d].src);
  }

  lemma NoReaders(nodes: seq<CopyNode>, v: nat)
    requires WellFormed(nodes) && v < |nodes| && nodes[v].numReads == 0
    ensures forall d :: 0 <= d < |nodes| ==> nodes[d].src != v
  {
    CountedAt(nodes, |nodes|, v);
    forall d | 0 <= d < |nodes|
      ensures nodes[d].src != v
    {
      assert Readers(nodes, v) == {};
      assert d !in Readers(nodes, v);
    }
  }

  lemma LinkReaders(nodes: seq<CopyNode>, d: nat, v: nat, w: nat)
    requires d < |nodes| && v < |nodes| && d != v && nodes[d].src == -1 && w < |nodes|
    ensures Readers(Link(nodes, d, v), w) == if w == v then Readers(nodes, w) + {d} else Readers(nodes, w)
    ensures d !in Readers(nodes, w)
  {
    var after := Link(nodes, d, v);
    assert forall e :: 0 <= e < |nodes| ==> after[e].src == if e == d then v else nodes[e].src;
  }

  lemma LinkWellFormed(nodes: seq<CopyNode>, d: nat, v: nat)
    requires WellFormed(nodes) && d < |nodes| && v < |nodes| && d != v && nodes[d].src == -1
    ensures WellFormed(Link(nodes, d, v))
  {
    var after := Link(nodes, d, v);
    forall e | 0 <= e < |nodes|
      ensures -1 <= after[e].src < |nodes| && after[e].src != e
      ensures after[e].numReads == |Readers(after, e)|
    {
      LinkReaders(nodes, d, v, e);
      CountedAt(nodes, |nodes|, e);
      var readers := Readers(nodes, e);
      assert nodes[e].numReads == |readers|;
      assert |readers + {d}| == |readers| + 1;
    }
    CountedIntro(after, |after|);
  }

  lemma UnlinkWellFormed(nodes: seq<CopyNode>, d: nat)
    requires WellFormed(nodes) && d < |nodes| && nodes[d].src >= 0
    requires nodes[nodes[d].src].numReads > 0
    ensures WellFormed(Unlink(nodes, d))
    ensures Linked(Unlink(nodes, d)) == Linked(nodes) - {d}
  {
    var after, v := Unlink(nodes, d), nodes[d].src;
    assert forall e :: 0 <= e < |nodes| ==> after[e].src == if e == d then -1 else nodes[e].src;
    forall w | 0 <= w < |nodes|
      ensures after[w].numReads == |Readers(after, w)|
    {
      CountedAt(nodes, |nodes|, w);
      if w == v {
        assert Readers(after, w) == Readers(nodes, w) - {d};
        assert d in Readers(nodes, w);
      } else {
        assert Readers(after, w) == Readers(nodes, w);
      }
    }
    CountedIntro(after, |after|);
  }

  class CopyGraph {
    var nodes: seq<CopyNode>

    constructor ()
      ensures nodes == []
    {
      nodes := [];
    }

    method AddNode() returns (idx: nat)
      modifies this
      ensures idx == old(|nodes|) && nodes == old(nodes) + [CopyNode(0, -1)]
    {
      idx := |nodes|;
      nodes := nodes + [CopyNode(0, -1)];
    }

    function NumReads(v: nat): (r: nat)
      requires v < |nodes|
      reads this
    {
      nodes[v].numReads
    }

    function Source(d: nat): (r: Option<nat>)
      requires d < |nodes|
      reads this
    {
      if nodes[d].src < 0 then None else Some(nodes[d].src)
    }

    method AddEdge(d: nat, v: nat)
      requires d < |nodes| && v < |nodes| && d != v && nodes[d].src == -1
      modifies this
      ensures nodes == Link(old(nodes), d, v)
    {
      nodes := nodes[d := nodes[d].(src := v)];
      nodes := nodes[v := nodes[v].(numReads := nodes[v].numReads + 1)];
    }

    method DelEdge(d: nat, v: nat) returns (last: bool)
      requires d < |nodes| && v < |nodes| && d != v && nodes[d].src == v
      requires nodes[v].numReads > 0
      modifies this
      ensures nodes == Unlink(old(nodes), d)
      ensures last <==> nodes[v].numReads == 0
    {
      nodes := nodes[d := nodes[d].(src := -1)];
      nodes := nodes[v := nodes[v].(numReads := nodes[v].numReads - 1)];
      last := nodes[v].numReads == 0;
    }
  }

  // ---------------------------------------------------------------------------
  // What the graph means
  // ---------------------------------------------------------------------------

  /** Node `v` stands for operand `vals[v]`; the first nodes are the
      destinations, and no register has two nodes. */
  ghost predicate Names(pairs: seq<Pair>, vals: seq<Src>) {
    && |pairs| <= |vals|
    && (forall k :: 0 <= k < |pairs| ==> vals[k] == FromReg(pairs[k].dst))
    && (forall k, l :: 0 <= k < l < |vals| && vals[k].FromReg? ==> vals[k] != vals[l])
  }

  /** With `code` emitted so far, destination `d` holds its final value if it has
      no edge, and otherwise that value is where its edge points. */
  ghost predicate Pending(pairs: seq<Pair>, vals: seq<Src>, nodes: seq<CopyNode>, code: seq<Move>)
    requires |nodes| == |vals| >= |pairs|
  {
    forall d :: 0 <= d < |nodes| && (d < |pairs| || nodes[d].src >= 0) ==>
      && d < |pairs|
      && (if 0 <= nodes[d].src < |vals|
          then OriginOf(code, vals[nodes[d].src]) == pairs[d].src
          else Origin(code, pairs[d].dst) == pairs[d].src)
  }

  ghost predicate Framed(pc: ParCopy, code: seq<Move>) {
    forall r :: !IsDst(pc.pairs, r) && !IsTmp(pc.tmp, r) ==> Origin(code, r) == FromReg(r)
  }

  ghost predicate Meaning(pc: ParCopy, vals: seq<Src>, nodes: seq<CopyNode>, code: seq<Move>) {
    && WellFormed(nodes) && |nodes| == |vals| && Names(pc.pairs, vals)
    && Pending(pc.pairs, vals, nodes, code) && Framed(pc, code)
  }

  /** The temporary is no register of the copy. */
  ghost predicate TmpOutside(pc: ParCopy) {
    forall i :: 0 <= i < |pc.pairs| ==>
      && !IsTmp(pc.tmp, pc.pairs[i].dst)
      && (pc.pairs[i].src.FromReg? ==> !IsTmp(pc.tmp, pc.pairs[i].src.reg))
  }

  ghost predicate TmpOutsideVals(pc: ParCopy, vals: seq<Src>) {
    forall v :: 0 <= v < |vals| && vals[v].FromReg? ==> !IsTmp(pc.tmp, vals[v].reg)
  }

  /** What one emitted piece of code does: `d` takes the value `src` had, and only
      the temporary changes besides. */
  ghost predicate Moves(pc: ParCopy, code: seq<Move>, after: seq<Move>, d: Reg, value: Src) {
    && Origin(after, d) == value
    && forall r :: r != d && !IsTmp(pc.tmp, r) ==> Origin(after, r) == Origin(code, r)
  }

  lemma CopyMoves(pc: ParCopy, code: seq<Move>, d: Reg, src: Src)
    ensures Moves(pc, code, code + [Copy(d, src)], d, OriginOf(code, src))
  {
    forall r
      ensures Origin(code + [Copy(d, src)], r) == if r == d then OriginOf(code, src) else Origin(code, r)
    {
      OriginSnoc(code, Copy(d, src), r);
    }
  }

  lemma CopyThroughTmpMoves(pc: ParCopy, code: seq<Move>, d: Reg, t: Reg, src: Src)
    requires IsTmp(pc.tmp, t)
    ensures Moves(pc, code, code + [Copy(t, src)] + [Copy(d, FromReg(t))], d, OriginOf(code, src))
    ensures forall r :: r != d && r != t ==>
              Origin(code + [Copy(t, src)] + [Copy(d, FromReg(t))], r) == Origin(code, r)
  {
    CopyMoves(pc, code, t, src);
    var mid := code + [Copy(t, src)];
    forall r
      ensures Origin(mid + [Copy(d, FromReg(t))], r) == if r == d then OriginOf(code, src) else Origin(mid, r)
    {
      OriginSnoc(code, Copy(t, src), r);
      OriginSnoc(code, Copy(t, src), t);
      OriginSnoc(mid, Copy(d, FromReg(t)), r);
    }
  }

  /** Filling a register nobody reads settles its node. */
  lemma FillKeepsMeaning(pc: ParCopy, vals: seq<Src>, nodes: seq<CopyNode>,
                         code: seq<Move>, after: seq<Move>, d: nat)
    requires Meaning(pc, vals, nodes, code) && TmpOutsideVals(pc, vals)
    requires d < |nodes| && nodes[d].src >= 0 && nodes[nodes[d].src].numReads > 0
    requires d < |pc.pairs|
    requires nodes[d].numReads == 0
    requires Moves(pc, code, after, pc.pairs[d].dst, OriginOf(code, vals[nodes[d].src]))
    ensures Meaning(pc, vals, Unlink(nodes, d), after)
  {
    var nodes' := Unlink(nodes, d);
    UnlinkWellFormed(nodes, d);
    NoReaders(nodes, d);
    forall e | 0 <= e < |nodes'| && (e < |pc.pairs| || nodes'[e].src >= 0)
      ensures e < |pc.pairs|
      ensures if 0 <= nodes'[e].src < |vals|
              then OriginOf(after, vals[nodes'[e].src]) == pc.pairs[e].src
              else Origin(after, pc.pairs[e].dst) == pc.pairs[e].src
    {
      assert nodes[e].src == nodes'[e].src || e == d;
      if e != d {
        assert vals[d] == FromReg(pc.pairs[d].dst);
        assert vals[e] == FromReg(pc.pairs[e].dst);
        assert vals[d] != vals[e];
      }
    }
  }

  // ---------------------------------------------------------------------------
  // What the ready loop leaves: disjoint simple cycles
  // ---------------------------------------------------------------------------

  /** The edges as a map from reader to read. */
  ghost function Edges(nodes: seq<CopyNode>): map<int, int> {
    map d: int | 0 <= d < |nodes| && nodes[d].src >= 0 :: nodes[d].src
  }

  /** Every edge leads to a node that has an edge, and no node is read twice. */
  ghost predicate CyclesOnly(nodes: seq<CopyNode>) {
    Edges(nodes).Values <= Edges(nodes).Keys && Injective(Edges(nodes))
  }

  /** The argument of the comment in the source: once every node with an edge is
      read, counting edges at both ends leaves only cycles. */
  lemma OnlyCyclesLeft(nodes: seq<CopyNode>)
    requires WellFormed(nodes)
    requires forall d :: 0 <= d < |nodes| && nodes[d].src >= 0 ==> nodes[d].numReads > 0
    ensures CyclesOnly(nodes)
  {
    var m := Edges(nodes);
    forall d | d in m
      ensures d in m.Values
    {
      SomeReader(nodes, d);
    }
    OntoIsPermutation(m);
  }

  lemma SomeReader(nodes: seq<CopyNode>, d: int)
    requires WellFormed(nodes) && 0 <= d < |nodes| && nodes[d].numReads > 0
    ensures exists e :: e in Edges(nodes) && Edges(nodes)[e] == d
  {
    var readers := Readers(nodes, d);
    CountedAt(nodes, |nodes|, d);
    assert readers != {};
    var e := PickOne(readers);
    assert e in Edges(nodes) && Edges(nodes)[e] == d;
  }

  /** Which destination each pair reads, if another one. */
  ghost function ReadMap(pairs: seq<Pair>): map<int, int> {
    map i: int | 0 <= i < |pairs| && ReadsOther(pairs, i) :: ReadIndex(pairs, pairs[i].src.reg)
  }

  ghost predicate ReadsOther(pairs: seq<Pair>, i: nat)
    requires i < |pairs|
  {
    pairs[i].src.FromReg? && pairs[i].src.reg != pairs[i].dst && IsDst(pairs, pairs[i].src.reg)
  }

  ghost function ReadIndex(pairs: seq<Pair>, r: Reg): (k: int)
    requires IsDst(pairs, r)
    ensures 0 <= k < |pairs| && pairs[k].dst == r
  {
    var k :| 0 <= k < |pairs| && pairs[k].dst == r; k
  }

  /** Following reads from destination `i` leads back to `i`. */
  ghost predicate OnCycle(pairs: seq<Pair>, i: nat) {
    exists steps :: steps > 0 && Walk(ReadMap(pairs), i, steps) == i
  }

  /** Edges are never invented: each one is a read of the copy itself. */
  ghost predicate EdgesAreReads(pairs: seq<Pair>, vals: seq<Src>, nodes: seq<CopyNode>) {
    forall d :: 0 <= d < |nodes| && nodes[d].src >= 0 ==>
      d < |pairs| && nodes[d].src < |vals| && vals[nodes[d].src] == pairs[d].src
  }

  /** Each node that keeps an edge through the ready loop is on a cycle. */
  lemma LeftoverIsOnCycle(pairs: seq<Pair>, vals: seq<Src>, nodes: seq<CopyNode>, i: nat)
    requires WellFormed(nodes) && |nodes| == |vals| && Names(pairs, vals) && Distinct(pairs)
    requires EdgesAreReads(pairs, vals, nodes) && CyclesOnly(nodes)
    requires i < |nodes| && nodes[i].src >= 0
    ensures OnCycle(pairs, i)
  {
    var m, whole := Edges(nodes), ReadMap(pairs);
    PermutationCycles(m, i);
    var steps :| steps > 0 && Walk(m, i, steps) == i;
    forall d | d in m
      ensures d in whole && whole[d] == m[d]
    {
      EdgeIsRead(pairs, vals, nodes, d);
    }
    WalkInSubmap(m, whole, i, steps);
  }

  lemma EdgeIsRead(pairs: seq<Pair>, vals: seq<Src>, nodes: seq<CopyNode>, d: int)
    requires WellFormed(nodes) && |nodes| == |vals| && Names(pairs, vals) && Distinct(pairs)
    requires EdgesAreReads(pairs, vals, nodes) && CyclesOnly(nodes)
    requires 0 <= d < |nodes| && nodes[d].src >= 0
    ensures d in ReadMap(pairs) && ReadMap(pairs)[d] == nodes[d].src
  {
    var v := nodes[d].src;
    assert d in Edges(nodes) && v in Edges(nodes).Values && v in Edges(nodes);
    assert vals[v] == FromReg(pairs[v].dst) && vals[d] == FromReg(pairs[d].dst);
    assert ReadsOther(pairs, d);
  }

  // ---------------------------------------------------------------------------
  // Breaking cycles
  // ---------------------------------------------------------------------------

  lemma CyclesOnlyFacts(nodes: seq<CopyNode>, d: nat)
    requires WellFormed(nodes) && CyclesOnly(nodes) && d < |nodes| && nodes[d].src >= 0
    ensures nodes[nodes[d].src].src >= 0 && nodes[nodes[d].src].numReads > 0
    ensures forall e :: 0 <= e < |nodes| && nodes[e].src == nodes[d].src ==> e == d
  {
    assert d in Edges(nodes) && nodes[d].src in Edges(nodes).Values;
    HasReads(nodes, d);
    forall e | 0 <= e < |nodes| && nodes[e].src == nodes[d].src
      ensures e == d
    {
      assert e in Edges(nodes);
    }
  }

  /** The graph after `swap(j, k)` where `i` reads `j` and `j` reads `k`. */
  function SwapEdges(nodes: seq<CopyNode>, i: nat, j: nat, k: nat): seq<CopyNode>
    requires i < |nodes| && j < |nodes| && k < |nodes| && i != j && j != k
    requires nodes[i].src == j && nodes[j].src == k && nodes[j].numReads > 0
    requires Unlink(nodes, i)[k].numReads > 0
  {
    var cut := Unlink(Unlink(nodes, i), j);
    if i == k then cut else Link(cut, i, k)
  }

  /** What `SwapEdges` does to the edges: `j` is done, `i` now reads `k`. */
  ghost predicate Swapped(nodes: seq<CopyNode>, after: seq<CopyNode>, i: nat, j: nat, k: nat) {
    |after| == |nodes| && forall e :: 0 <= e < |nodes| ==>
      after[e].src == if e == j then -1 else if e == i then (if i == k then -1 else k) else nodes[e].src
  }

  lemma SwapEdgesSwapped(nodes: seq<CopyNode>, i: nat, j: nat, k: nat)
    requires i < |nodes| && j < |nodes| && k < |nodes| && i != j && j != k
    requires nodes[i].src == j && nodes[j].src == k && nodes[j].numReads > 0
    requires Unlink(nodes, i)[k].numReads > 0
    ensures Swapped(nodes, SwapEdges(nodes, i, j, k), i, j, k)
  {
  }

  lemma SwapEdgesWellFormed(nodes: seq<CopyNode>, i: nat, j: nat, k: nat)
    requires WellFormed(nodes) && i < |nodes| && nodes[i].src == j && j < |nodes| && nodes[j].src == k
    ensures nodes[j].numReads > 0 && Unlink(nodes, i)[k].numReads > 0
    ensures WellFormed(SwapEdges(nodes, i, j, k))
  {
    HasReads(nodes, i);
    UnlinkWellFormed(nodes, i);
    HasReads(Unlink(nodes, i), j);
    UnlinkWellFormed(Unlink(nodes, i), j);
    if i != k { LinkWellFormed(Unlink(Unlink(nodes, i), j), i, k); }
  }

  lemma AfterSwapCycles(nodes: seq<CopyNode>, after: seq<CopyNode>, i: nat, j: nat, k: nat)
    requires Swapped(nodes, after, i, j, k) && CyclesOnly(nodes)
    requires i < |nodes| && j < |nodes| && k < |nodes| && nodes[i].src == j && nodes[j].src == k
    ensures CyclesOnly(after)
  {
    var m, m' := Edges(nodes), Edges(after);
    assert m[i] == j && m[j] == k;
    forall v | v in m'.Values
      ensures v in m'.Keys
    {
      var d :| d in m' && m'[d] == v;
      if d == i {
        assert m[j] in m.Values;
      } else {
        assert m[d] == v && v in m.Values;
      }
    }
    forall d, e | d in m' && e in m' && m'[d] == m'[e]
      ensures d == e
    {
      assert m[if d == i then j else d] == m[if e == i then j else e];
    }
  }

  /** A swap of `j` and `k` settles `j` and points `i`, which read `j`, at `k`. */
  lemma SwapKeepsPending(pairs: seq<Pair>, vals: seq<Src>, nodes: seq<CopyNode>, after: seq<CopyNode>,
                         code: seq<Move>, i: nat, j: nat, k: nat)
    requires |nodes| == |vals| == |after| && Names(pairs, vals) && CyclesOnly(nodes)
    requires Pending(pairs, vals, nodes, code)
    requires i < |nodes| && j < |nodes| && k < |nodes| && nodes[i].src == j && nodes[j].src == k
    requires forall e :: 0 <= e < |nodes| ==> -1 <= nodes[e].src < |nodes|
    requires Swapped(nodes, after, i, j, k)
    ensures j < |pairs| && k < |pairs|
    ensures Pending(pairs, vals, after, code + [Swap(pairs[j].dst, pairs[k].dst)])
  {
    var m := Edges(nodes);
    assert m[i] == j && m[j] == k && m[j] in m.Values;
    assert k in m;
    var code' := code + [Swap(pairs[j].dst, pairs[k].dst)];
    forall e | 0 <= e < |after| && (e < |pairs| || after[e].src >= 0)
      ensures e < |pairs|
      ensures if 0 <= after[e].src < |vals|
              then OriginOf(code', vals[after[e].src]) == pairs[e].src
              else Origin(code', pairs[e].dst) == pairs[e].src
    {
      assert e < |pairs|;
      OriginSnoc(code, Swap(pairs[j].dst, pairs[k].dst), pairs[e].dst);
      var v := after[e].src;
      if e == j || e == i {
        OriginSnoc(code, Swap(pairs[j].dst, pairs[k].dst), pairs[k].dst);
      } else if v >= 0 {
        assert m[e] == v && v in m.Values && v in m;
        assert vals[v] == FromReg(pairs[v].dst);
        OriginSnoc(code, Swap(pairs[j].dst, pairs[k].dst), pairs[v].dst);
      }
    }
  }

  lemma SwapKeepsFrame(pc: ParCopy, code: seq<Move>, x: Reg, y: Reg)
    requires Framed(pc, code) && IsDst(pc.pairs, x) && IsDst(pc.pairs, y)
    ensures Framed(pc, code + [Swap(x, y)])
  {
    forall r | !IsDst(pc.pairs, r) && !IsTmp(pc.tmp, r)
      ensures Origin(code + [Swap(x, y)], r) == FromReg(r)
    {
      OriginSnoc(code, Swap(x, y), r);
    }
  }

  // ---------------------------------------------------------------------------
  // Breaking a cycle with a temporary
  // ---------------------------------------------------------------------------

  /** The cycle through `i` has been cut at `i`, whose readers now look at the
      temporary; `p` is to be filled next and nobody reads its register. */
  ghost predicate OpenGraph(nodes: seq<CopyNode>, i: nat, p: nat) {
    && p < |nodes| && nodes[p].src >= 0
    && Injective(Edges(nodes))
    && (p == i || (i < |nodes| && nodes[i].src < 0))
    && (forall v :: v in Edges(nodes).Values ==> v == i || (v in Edges(nodes) && v != p))
  }

  ghost predicate OpenPending(pairs: seq<Pair>, vals: seq<Src>, nodes: seq<CopyNode>, code: seq<Move>,
                              t: Reg, i: nat)
    requires |nodes| == |vals| >= |pairs|
  {
    forall d :: 0 <= d < |nodes| && (d < |pairs| || nodes[d].src >= 0) ==>
      && d < |pairs|
      && (if nodes[d].src == i then Origin(code, t) == pairs[d].src
          else if 0 <= nodes[d].src < |vals| then OriginOf(code, vals[nodes[d].src]) == pairs[d].src
          else Origin(code, pairs[d].dst) == pairs[d].src)
  }

  lemma OpenCycle(pc: ParCopy, vals: seq<Src>, nodes: seq<CopyNode>, code: seq<Move>, t: Reg, i: nat)
    requires Meaning(pc, vals, nodes, code) && CyclesOnly(nodes) && TmpOutsideVals(pc, vals)
    requires i < |pc.pairs| && nodes[i].src >= 0 && IsTmp(pc.tmp, t)
    ensures OpenGraph(nodes, i, i)
    ensures OpenPending(pc.pairs, vals, nodes, code + [Copy(t, FromReg(pc.pairs[i].dst))], t, i)
    ensures Framed(pc, code + [Copy(t, FromReg(pc.pairs[i].dst))])
  {
    CopyMoves(pc, code, t, FromReg(pc.pairs[i].dst));
    forall d | 0 <= d < |pc.pairs|
      ensures vals[d] == FromReg(pc.pairs[d].dst)
    {
    }
  }

  lemma UnlinkEdges(nodes: seq<CopyNode>, p: nat)
    requires WellFormed(nodes) && p < |nodes| && nodes[p].src >= 0 && nodes[nodes[p].src].numReads > 0
    ensures Edges(Unlink(nodes, p)) == Edges(nodes) - {p}
    ensures |Unlink(nodes, p)| == |nodes|
    ensures forall e :: 0 <= e < |nodes| ==> Unlink(nodes, p)[e].src == if e == p then -1 else nodes[e].src
  {
  }

  lemma OpenGraphStep(nodes: seq<CopyNode>, nodes': seq<CopyNode>, i: nat, p: nat)
    requires OpenGraph(nodes, i, p) && nodes[p].src < |nodes| == |nodes'| && nodes[p].src != p
    requires Edges(nodes') == Edges(nodes) - {p}
    ensures Injective(Edges(nodes'))
    ensures nodes[p].src != i ==> OpenGraph(nodes', i, nodes[p].src)
    ensures nodes[p].src == i ==> CyclesOnly(nodes') && (i < |nodes'| ==> nodes'[i].src < 0)
  {
    var m, m', j := Edges(nodes), Edges(nodes'), nodes[p].src;
    assert m[p] == j && j in m.Values;
    forall v | v in m'.Values
      ensures v in m.Values && v != j
    {
      var d :| d in m' && m'[d] == v;
      assert m[d] == v && v in m.Values;
    }
    assert i !in m';
    if j != i {
      assert j in m';
    }
  }

  /** Filling `p` from the register its edge points at. */
  lemma OpenPendingStep(pc: ParCopy, vals: seq<Src>, nodes: seq<CopyNode>, nodes': seq<CopyNode>,
                        code: seq<Move>, after: seq<Move>, t: Reg, i: nat, p: nat)
    requires |nodes| == |vals| == |nodes'| && Names(pc.pairs, vals) && TmpOutsideVals(pc, vals)
    requires OpenGraph(nodes, i, p) && OpenPending(pc.pairs, vals, nodes, code, t, i)
    requires 0 <= nodes[p].src < |vals|
    requires forall e :: 0 <= e < |nodes| ==> nodes'[e].src == if e == p then -1 else nodes[e].src
    requires p < |pc.pairs| && IsTmp(pc.tmp, t)
    requires Moves(pc, code, after, pc.pairs[p].dst,
                   if nodes[p].src == i then Origin(code, t) else OriginOf(code, vals[nodes[p].src]))
    requires nodes[p].src != i ==> Origin(after, t) == Origin(code, t)
    ensures nodes[p].src != i ==> OpenPending(pc.pairs, vals, nodes', after, t, i)
    ensures nodes[p].src == i ==> Pending(pc.pairs, vals, nodes', after)
  {
    var m := Edges(nodes);
    forall d | 0 <= d < |nodes'| && (d < |pc.pairs| || nodes'[d].src >= 0)
      ensures d < |pc.pairs|
      ensures nodes[p].src != i && nodes'[d].src == i ==> Origin(after, t) == pc.pairs[d].src
      ensures nodes'[d].src != i && 0 <= nodes'[d].src < |vals| ==>
                OriginOf(after, vals[nodes'[d].src]) == pc.pairs[d].src
      ensures nodes[p].src == i ==> nodes'[d].src != i
      ensures nodes'[d].src < 0 || nodes'[d].src >= |vals| ==> Origin(after, pc.pairs[d].dst) == pc.pairs[d].src
    {
      assert d < |pc.pairs|;
      assert vals[d] == FromReg(pc.pairs[d].dst) && vals[p] == FromReg(pc.pairs[p].dst);
      var v := nodes'[d].src;
      if 0 <= v < |vals| {
        assert m[d] == v && v in m.Values && m[p] == nodes[p].src;
        if v != i {
          assert v < |pc.pairs| && vals[v] == FromReg(pc.pairs[v].dst);
        }
      }
    }
  }

  // ---------------------------------------------------------------------------
  // The pass
  // ---------------------------------------------------------------------------

  predicate CopyNeedsTmp(d: Reg, src: Src) {
    if src.FromReg? then
      (d.file == Mem && src.reg.file != GPR) || (d.file == Bar && src.reg.file == Bar)
    else
      d.file == Mem
  }

  /** Where the way through a GPR is open, it is taken exactly if no single instruction
      does the copy; only a barrier is not filled that way from memory or a constant. */
  lemma TmpWhenNeeded(d: Reg, src: Src, t: Reg)
    requires t.file == GPR && LowerCopySwap.CopyOk(t, src) && LowerCopySwap.CopyOk(d, FromReg(t))
    ensures CopyNeedsTmp(d, src) <==>
            !LowerCopySwap.CopyOk(d, src) && !(d.file == Bar && (src.FromReg? ==> src.reg.file == Mem))
  {
    if d.file == Bar && src.FromReg? { assert src.reg.file in {GPR, UGPR, Bar, Mem}; }
  }

  predicate IsSelfCopy(p: Pair) {
    p.src == FromReg(p.dst)
  }

  /** What `lower_par_copy` asserts of a copy: distinct destinations, a GPR
      temporary wherever one is expected, two for a cycle in memory or barrier
      registers, and no cycle across register files. */
  ghost predicate Valid(pc: ParCopy) {
    && Distinct(pc.pairs) && TmpOutside(pc)
    && (pc.tmp.Some? ==> pc.tmp.value.file == GPR && pc.tmp.value.comps > 0)
    && (forall i :: 0 <= i < |pc.pairs| && !IsSelfCopy(pc.pairs[i]) ==>
          CopyNeedsTmp(pc.pairs[i].dst, pc.pairs[i].src) ==> pc.tmp.Some?)
    && (forall i :: 0 <= i < |pc.pairs| && OnCycle(pc.pairs, i) ==>
          && pc.pairs[i].src.FromReg? && pc.pairs[i].src.reg.file == pc.pairs[i].dst.file
          && (pc.pairs[i].dst.file in {Bar, Mem} ==> pc.tmp.Some? && pc.tmp.value.comps >= 2))
  }

  /** Each pair is one the next pass can express, through the temporary if the
      copy takes that way. */
  ghost predicate Lowerable(pc: ParCopy)
    requires Valid(pc)
  {
    forall i :: 0 <= i < |pc.pairs| && !IsSelfCopy(pc.pairs[i]) ==>
      var d, src := pc.pairs[i].dst, pc.pairs[i].src;
      if CopyNeedsTmp(d, src) then
        LowerCopySwap.CopyOk(pc.tmp.value.Comp(0), src) && LowerCopySwap.CopyOk(d, FromReg(pc.tmp.value.Comp(0)))
      else
        LowerCopySwap.CopyOk(d, src)
  }

  ghost predicate AllOk(code: seq<Move>) {
    forall i :: 0 <= i < |code| ==> LowerCopySwap.MoveOk(code[i])
  }

  /** Every register of the graph is one of the copy. */
  ghost predicate ValsFromCopy(pairs: seq<Pair>, vals: seq<Src>) {
    forall v :: 0 <= v < |vals| && vals[v].FromReg? ==>
      exists i :: 0 <= i < |pairs| && (pairs[i].dst == vals[v].reg || pairs[i].src == vals[v])
  }

  /** The graph once the sources of the first `n` pairs have their edges. */
  ghost predicate Built(pairs: seq<Pair>, vals: seq<Src>, nodes: seq<CopyNode>, n: int) {
    && |nodes| == |vals| >= |pairs| >= n >= 0
    && (forall k :: 0 <= k < |pairs| ==> vals[k] == FromReg(pairs[k].dst))
    && WellFormed(nodes) && ValsFromCopy(pairs, vals)
    && (forall e :: n <= e < |vals| ==> nodes[e].src == -1)
    && (forall e :: 0 <= e < n ==>
          if nodes[e].src < 0 then IsSelfCopy(pairs[e])
          else nodes[e].src < |vals| && vals[nodes[e].src] == pairs[e].src)
  }

  method AddDsts(pc: ParCopy, graph: CopyGraph) returns (vals: seq<Src>, regToIdx: map<Reg, nat>)
    requires graph.nodes == [] && Distinct(pc.pairs)
    modifies graph
    ensures Built(pc.pairs, vals, graph.nodes, 0) && IndexOf(regToIdx, vals)
  {
    vals, regToIdx := [], map[];
    for i := 0 to |pc.pairs|
      invariant |graph.nodes| == |vals| == i
      invariant forall k :: 0 <= k < i ==> graph.nodes[k] == CopyNode(0, -1) && vals[k] == FromReg(pc.pairs[k].dst)
      invariant IndexOf(regToIdx, vals)
    {
      var reg := pc.pairs[i].dst;
      var nodeIdx := graph.AddNode();
      vals := vals + [FromReg(reg)];
      regToIdx := regToIdx[reg := nodeIdx];
    }
    assert forall v :: 0 <= v < |vals| ==> Readers(graph.nodes, v) == {};
    CountedIntro(graph.nodes, |graph.nodes|);
  }

  lemma BuiltAddNode(pairs: seq<Pair>, vals: seq<Src>, nodes: seq<CopyNode>, n: int)
    requires Built(pairs, vals, nodes, n) && n < |pairs|
    ensures Built(pairs, vals + [pairs[n].src], nodes + [CopyNode(0, -1)], n)
  {
    AddedNodeWellFormed(nodes);
  }

  lemma BuiltLink(pairs: seq<Pair>, vals: seq<Src>, nodes: seq<CopyNode>, n: nat, v: nat)
    requires Built(pairs, vals, nodes, n) && n < |pairs| && v < |vals| && vals[v] == pairs[n].src
    ensures n == v ==> Built(pairs, vals, nodes, n + 1)
    ensures n != v ==> Built(pairs, vals, Link(nodes, n, v), n + 1)
  {
    if n != v {
      LinkWellFormed(nodes, n, v);
      assert forall e :: 0 <= e < |nodes| ==> Link(nodes, n, v)[e].src == if e == n then v else nodes[e].src;
    }
  }

  lemma BuiltMeans(pc: ParCopy, vals: seq<Src>, nodes: seq<CopyNode>, regToIdx: map<Reg, nat>)
    requires Built(pc.pairs, vals, nodes, |pc.pairs|) && IndexOf(regToIdx, vals)
    ensures Meaning(pc, vals, nodes, []) && EdgesAreReads(pc.pairs, vals, nodes)
  {
    assert Framed(pc, []);
    forall d | 0 <= d < |nodes| && nodes[d].src >= 0
      ensures OriginOf([], vals[nodes[d].src]) == pc.pairs[d].src
    {
      assert forall r :: Origin([], r) == FromReg(r);
    }
  }

  /** The node of the `d`-th source, made if it is a new register or no register. */
  method NodeFor(pc: ParCopy, graph: CopyGraph, vals: seq<Src>, regToIdx: map<Reg, nat>, d: nat)
    returns (vals': seq<Src>, regToIdx': map<Reg, nat>, srcIdx: nat)
    requires d < |pc.pairs| && Built(pc.pairs, vals, graph.nodes, d) && IndexOf(regToIdx, vals)
    modifies graph
    ensures Built(pc.pairs, vals', graph.nodes, d) && IndexOf(regToIdx', vals')
    ensures srcIdx < |vals'| && vals'[srcIdx] == pc.pairs[d].src
  {
    vals', regToIdx' := vals, regToIdx;
    var src := pc.pairs[d].src;
    if src.FromReg? && src.reg in regToIdx {
      srcIdx := regToIdx[src.reg];
    } else {
      BuiltAddNode(pc.pairs, vals, graph.nodes, d);
      IndexAdd(regToIdx, vals, src);
      srcIdx := graph.AddNode();
      vals' := vals + [src];
      if src.FromReg? { regToIdx' := regToIdx[src.reg := srcIdx]; }
    }
  }

  /** The two phases of building the graph. */
  method BuildGraph(pc: ParCopy) returns (graph: CopyGraph, vals: seq<Src>)
    requires Distinct(pc.pairs)
    ensures fresh(graph)
    ensures Meaning(pc, vals, graph.nodes, [])
    ensures EdgesAreReads(pc.pairs, vals, graph.nodes) && ValsFromCopy(pc.pairs, vals)
  {
    graph := new CopyGraph();
    var regToIdx: map<Reg, nat>;
    vals, regToIdx := AddDsts(pc, graph);
    for d := 0 to |pc.pairs|
      invariant Built(pc.pairs, vals, graph.nodes, d) && IndexOf(regToIdx, vals)
    {
      var srcIdx;
      vals, regToIdx, srcIdx := NodeFor(pc, graph, vals, regToIdx, d);
      BuiltLink(pc.pairs, vals, graph.nodes, d, srcIdx);
      if d != srcIdx {
        graph.AddEdge(d, srcIdx);
      }
    }
    BuiltMeans(pc, vals, graph.nodes, regToIdx);
  }

  /** `reg_to_idx` names the register nodes, each once. */
  ghost predicate IndexOf(regToIdx: map<Reg, nat>, vals: seq<Src>) {
    && (forall r :: r in regToIdx ==> regToIdx[r] < |vals| && vals[regToIdx[r]] == FromReg(r))
    && (forall v :: 0 <= v < |vals| && vals[v].FromReg? ==> vals[v].reg in regToIdx && regToIdx[vals[v].reg] == v)
  }

  lemma IndexAdd(regToIdx: map<Reg, nat>, vals: seq<Src>, src: Src)
    requires IndexOf(regToIdx, vals) && (src.FromReg? ==> src.reg !in regToIdx)
    ensures IndexOf(if src.FromReg? then regToIdx[src.reg := |vals|] else regToIdx, vals + [src])
  {
    var vals' := vals + [src];
    assert forall v :: 0 <= v < |vals| ==> vals'[v] == vals[v];
  }

  lemma AddedNodeWellFormed(nodes: seq<CopyNode>)
    requires WellFormed(nodes)
    ensures WellFormed(nodes + [CopyNode(0, -1)])
  {
    var nodes' := nodes + [CopyNode(0, -1)];
    forall v | 0 <= v < |nodes'|
      ensures nodes'[v].numReads == |Readers(nodes', v)|
    {
      if v < |nodes| {
        CountedAt(nodes, |nodes|, v);
        assert Readers(nodes', v) == Readers(nodes, v);
      } else {
        assert Readers(nodes', v) == {};
      }
    }
    CountedIntro(nodes', |nodes'|);
  }

  /** State of the pass between emissions. */
  ghost predicate Lowering(pc: ParCopy, vals: seq<Src>, nodes: seq<CopyNode>, code: seq<Move>)
    requires Valid(pc)
  {
    && Meaning(pc, vals, nodes, code) && TmpOutsideVals(pc, vals)
    && (Lowerable(pc) ==> AllOk(code))
  }

  /** Every node that waits and is not read is in the ready list. */
  ghost predicate ReadyListed(nodes: seq<CopyNode>, ready: seq<nat>) {
    && (forall v :: v in ready ==> v < |nodes| && nodes[v].numReads == 0)
    && (forall d :: 0 <= d < |nodes| && nodes[d].src >= 0 && nodes[d].numReads == 0 ==> d in ready)
  }

  lemma PopReady(nodes: seq<CopyNode>, ready: seq<nat>)
    requires WellFormed(nodes) && ReadyListed(nodes, ready) && ready != []
    ensures var d, rest := ready[|ready| - 1], ready[..|ready| - 1];
            && (nodes[d].src < 0 ==> ReadyListed(nodes, rest))
            && (nodes[d].src >= 0 && nodes[nodes[d].src].numReads > 0 ==>
                  var v := nodes[d].src; var nodes' := Unlink(nodes, d);
                  && |nodes'| == |nodes|
                  && ReadyListed(nodes', if nodes'[v].numReads == 0 then rest + [v] else rest))
  {
    var d, rest := ready[|ready| - 1], ready[..|ready| - 1];
    assert ready == rest + [d];
    if nodes[d].src >= 0 && nodes[nodes[d].src].numReads > 0 {
      var v := nodes[d].src;
      var nodes' := Unlink(nodes, d);
      assert forall e :: 0 <= e < |nodes| ==> nodes'[e].src == if e == d then -1 else nodes[e].src;
      assert forall e :: 0 <= e < |nodes| && e != v ==> nodes'[e].numReads == nodes[e].numReads;
      var ready' := if nodes'[v].numReads == 0 then rest + [v] else rest;
      forall e | 0 <= e < |nodes| && nodes'[e].src >= 0 && nodes'[e].numReads == 0
        ensures e in ready'
      {
        assert e != v ==> e in ready;
      }
      forall w | w in ready'
        ensures w < |nodes| && nodes'[w].numReads == 0
      {
        assert w in rest ==> w in ready;
      }
    }
  }

  predicate CycleUsesSwap(pc: ParCopy, file: RegFile) {
    match file
    case GPR => pc.tmp.None?
    case Bar => false
    case Mem => false
    case _ => true
  }

  /** Cycles of GPRs go round through the temporary if there is one, and registers
      without exclusive-or never trade places directly. */
  ghost predicate SwapsSparing(pc: ParCopy, code: seq<Move>) {
    forall i :: 0 <= i < |code| && code[i].Swap? ==>
      code[i].x.file == code[i].y.file && code[i].x.file !in {Bar, Mem} && (code[i].x.file == GPR ==> pc.tmp.None?)
  }

  lemma SparingCopies(pc: ParCopy, code: seq<Move>, more: seq<Move>)
    requires SwapsSparing(pc, code) && forall i :: 0 <= i < |more| ==> more[i].Copy?
    ensures SwapsSparing(pc, code + more)
  {
  }

  lemma SparingSwap(pc: ParCopy, code: seq<Move>, x: Reg, y: Reg)
    requires SwapsSparing(pc, code) && x.file == y.file && CycleUsesSwap(pc, x.file)
    ensures SwapsSparing(pc, code + [Swap(x, y)])
  {
  }

  /** What the ready loop emits to fill `d` from `src`. */
  function ReadyMoves(pc: ParCopy, d: Reg, src: Src): seq<Move>
    requires CopyNeedsTmp(d, src) ==> pc.tmp.Some? && pc.tmp.value.comps > 0
  {
    if CopyNeedsTmp(d, src) then
      [Copy(pc.tmp.value.Comp(0), src), Copy(d, FromReg(pc.tmp.value.Comp(0)))]
    else
      [Copy(d, src)]
  }

  lemma ReadyMovesMove(pc: ParCopy, code: seq<Move>, d: Reg, src: Src)
    requires CopyNeedsTmp(d, src) ==> pc.tmp.Some? && pc.tmp.value.comps > 0
    ensures Moves(pc, code, code + ReadyMoves(pc, d, src), d, OriginOf(code, src))
  {
    if CopyNeedsTmp(d, src) {
      var t := pc.tmp.value.Comp(0);
      CopyThroughTmpMoves(pc, code, d, t, src);
      assert code + [Copy(t, src)] + [Copy(d, FromReg(t))] == code + ReadyMoves(pc, d, src);
    } else {
      CopyMoves(pc, code, d, src);
    }
  }

  lemma ReadyMovesOk(pc: ParCopy, code: seq<Move>, i: nat)
    requires Valid(pc) && Lowerable(pc) && AllOk(code) && i < |pc.pairs| && !IsSelfCopy(pc.pairs[i])
    ensures AllOk(code + ReadyMoves(pc, pc.pairs[i].dst, pc.pairs[i].src))
  {
  }

  /** The code the ready loop emits for `dstIdx` settles the node. */
  lemma ReadyCopy(pc: ParCopy, vals: seq<Src>, nodes: seq<CopyNode>, code: seq<Move>, dstIdx: nat)
    requires Valid(pc) && Lowering(pc, vals, nodes, code) && EdgesAreReads(pc.pairs, vals, nodes)
    requires dstIdx < |nodes| && nodes[dstIdx].src >= 0 && nodes[dstIdx].numReads == 0
    ensures dstIdx < |pc.pairs| && nodes[nodes[dstIdx].src].numReads > 0
    ensures vals[dstIdx] == FromReg(pc.pairs[dstIdx].dst) && !IsSelfCopy(pc.pairs[dstIdx])
    ensures vals[nodes[dstIdx].src] == pc.pairs[dstIdx].src
    ensures Lowering(pc, vals, Unlink(nodes, dstIdx),
                     code + ReadyMoves(pc, pc.pairs[dstIdx].dst, pc.pairs[dstIdx].src))
    ensures EdgesAreReads(pc.pairs, vals, Unlink(nodes, dstIdx))
  {
    HasReads(nodes, dstIdx);
    UnlinkEdges(nodes, dstIdx);
    var d, src := pc.pairs[dstIdx].dst, pc.pairs[dstIdx].src;
    assert src == vals[nodes[dstIdx].src] && src != vals[dstIdx];
    ReadyMovesMove(pc, code, d, src);
    FillKeepsMeaning(pc, vals, nodes, code, code + ReadyMoves(pc, d, src), dstIdx);
    if Lowerable(pc) { ReadyMovesOk(pc, code, dstIdx); }
  }

  lemma SparingReady(pc: ParCopy, code: seq<Move>, d: Reg, src: Src)
    requires SwapsSparing(pc, code) && (CopyNeedsTmp(d, src) ==> pc.tmp.Some? && pc.tmp.value.comps > 0)
    ensures SwapsSparing(pc, code + ReadyMoves(pc, d, src))
  {
    hide SwapsSparing;
    SparingCopies(pc, code, ReadyMoves(pc, d, src));
  }

  /** The ready loop: emit copies into registers nobody reads any more. */
  method DrainReady(pc: ParCopy, graph: CopyGraph, vals: seq<Src>) returns (code: seq<Move>)
    requires Valid(pc) && Lowering(pc, vals, graph.nodes, []) && EdgesAreReads(pc.pairs, vals, graph.nodes)
    modifies graph
    ensures Lowering(pc, vals, graph.nodes, code) && SwapsSparing(pc, code)
    ensures EdgesAreReads(pc.pairs, vals, graph.nodes) && CyclesOnly(graph.nodes)
  {
    code := [];
    var ready: seq<nat> := [];
    for i := 0 to |pc.pairs|
      invariant graph.nodes == old(graph.nodes)
      invariant forall v :: v in ready ==> v < |graph.nodes| && graph.nodes[v].numReads == 0
      invariant forall d :: 0 <= d < i && graph.nodes[d].numReads == 0 ==> d in ready
    {
      if graph.NumReads(i) == 0 { ready := ready + [i]; }
    }
    while ready != []
      invariant Lowering(pc, vals, graph.nodes, code) && EdgesAreReads(pc.pairs, vals, graph.nodes)
      invariant ReadyListed(graph.nodes, ready) && SwapsSparing(pc, code)
      decreases Linked(graph.nodes), |ready|
    {
      hide Lowering, SwapsSparing;
      var dstIdx := ready[|ready| - 1];
      PopReady(graph.nodes, ready);
      ready := ready[..|ready| - 1];
      var source := graph.Source(dstIdx);
      if source.Some? {
        var srcIdx := source.value;
        ReadyCopy(pc, vals, graph.nodes, code, dstIdx);
        UnlinkWellFormed(graph.nodes, dstIdx);
        SparingReady(pc, code, vals[dstIdx].reg, vals[srcIdx]);
        code := code + ReadyMoves(pc, vals[dstIdx].reg, vals[srcIdx]);
        var last := graph.DelEdge(dstIdx, srcIdx);
        if last { ready := ready + [srcIdx]; }
      }
    }
    OnlyCyclesLeft(graph.nodes);
  }

  /** The edges that are left stay inside one register file, and where that file
      needs temporaries they are there. */
  ghost predicate SameFile(pc: ParCopy, nodes: seq<CopyNode>) {
    forall d :: 0 <= d < |nodes| && nodes[d].src >= 0 ==>
      && d < |pc.pairs| && nodes[d].src < |pc.pairs|
      && pc.pairs[nodes[d].src].dst.file == pc.pairs[d].dst.file
      && (pc.pairs[d].dst.file in {Bar, Mem} ==> pc.tmp.Some? && pc.tmp.value.comps >= 2)
      && !IsSelfCopy(pc.pairs[d])
  }

  lemma LeftoverSameFile(pc: ParCopy, vals: seq<Src>, nodes: seq<CopyNode>, code: seq<Move>)
    requires Valid(pc) && Lowering(pc, vals, nodes, code)
    requires EdgesAreReads(pc.pairs, vals, nodes) && CyclesOnly(nodes)
    ensures SameFile(pc, nodes)
  {
    forall d | 0 <= d < |nodes| && nodes[d].src >= 0
      ensures nodes[d].src < |pc.pairs| && OnCycle(pc.pairs, d)
      ensures vals[nodes[d].src] == FromReg(pc.pairs[nodes[d].src].dst) == pc.pairs[d].src
      ensures !IsSelfCopy(pc.pairs[d])
    {
      LeftoverIsOnCycle(pc.pairs, vals, nodes, d);
      EdgeIsRead(pc.pairs, vals, nodes, d);
    }
  }

  lemma SwapRoundGraph(nodes: seq<CopyNode>, i: nat, j: nat, k: nat)
    requires WellFormed(nodes) && CyclesOnly(nodes)
    requires i < |nodes| && nodes[i].src == j && j < |nodes| && nodes[j].src == k
    ensures nodes[j].numReads > 0 && Unlink(nodes, i)[k].numReads > 0
    ensures WellFormed(SwapEdges(nodes, i, j, k)) && CyclesOnly(SwapEdges(nodes, i, j, k))
    ensures Swapped(nodes, SwapEdges(nodes, i, j, k), i, j, k)
    ensures Linked(SwapEdges(nodes, i, j, k)) == Linked(nodes) - (if i == k then {i, j} else {j})
  {
    SwapEdgesWellFormed(nodes, i, j, k);
    SwapEdgesSwapped(nodes, i, j, k);
    AfterSwapCycles(nodes, SwapEdges(nodes, i, j, k), i, j, k);
  }

  /** One round of the swap loop at `i`. */
  lemma SwapRound(pc: ParCopy, vals: seq<Src>, nodes: seq<CopyNode>, after: seq<CopyNode>, code: seq<Move>,
                  i: nat, j: nat, k: nat)
    requires Valid(pc) && Lowering(pc, vals, nodes, code) && CyclesOnly(nodes) && SameFile(pc, nodes)
    requires i < |nodes| && nodes[i].src == j && j < |nodes| && nodes[j].src == k && k < |nodes|
    requires WellFormed(after) && Swapped(nodes, after, i, j, k)
    requires CycleUsesSwap(pc, pc.pairs[i].dst.file)
    ensures j < |pc.pairs| && k < |pc.pairs|
    ensures Lowering(pc, vals, after, code + [Swap(pc.pairs[j].dst, pc.pairs[k].dst)])
    ensures SameFile(pc, after)
  {
    SwapKeepsPending(pc.pairs, vals, nodes, after, code, i, j, k);
    SwapKeepsFrame(pc, code, pc.pairs[j].dst, pc.pairs[k].dst);
    if Lowerable(pc) {
      assert LowerCopySwap.SwapOk(pc.pairs[j].dst, pc.pairs[k].dst);
    }
  }

  /** Lowering once the ready loop is done. */
  ghost predicate Breaking(pc: ParCopy, vals: seq<Src>, nodes: seq<CopyNode>, code: seq<Move>)
    requires Valid(pc)
  {
    Lowering(pc, vals, nodes, code) && CyclesOnly(nodes) && SameFile(pc, nodes)
  }

  /** The body of the swap loop; `last` if the cycle is gone. */
  method SwapOnce(pc: ParCopy, graph: CopyGraph, vals: seq<Src>, i: nat, before: seq<Move>)
    returns (code: seq<Move>, last: bool)
    requires Valid(pc) && Breaking(pc, vals, graph.nodes, before) && SwapsSparing(pc, before)
    requires i < |graph.nodes| && graph.nodes[i].src >= 0 && CycleUsesSwap(pc, pc.pairs[i].dst.file)
    modifies graph
    ensures Breaking(pc, vals, graph.nodes, code) && SwapsSparing(pc, code)
    ensures |graph.nodes| == old(|graph.nodes|)
    ensures Linked(graph.nodes) < old(Linked(graph.nodes))
    ensures last <==> graph.nodes[i].src < 0
  {
    CyclesOnlyFacts(graph.nodes, i);
    var j := graph.Source(i).value;
    var k := graph.Source(j).value;
    ghost var after := SwapGraph(pc, vals, graph.nodes, before, i, j, k);
    hide SwapsSparing;
    code := before + [Swap(vals[j].reg, vals[k].reg)];
    last := MoveEdge(graph, i, j, k);
  }

  /** `i` reads `j` and `j` reads `k`: drop both edges, and let `i` read `k`. */
  method MoveEdge(graph: CopyGraph, i: nat, j: nat, k: nat) returns (last: bool)
    requires i < |graph.nodes| && j < |graph.nodes| && k < |graph.nodes| && i != j && j != k
    requires graph.nodes[i].src == j && graph.nodes[j].src == k && graph.nodes[j].numReads > 0
    requires Unlink(graph.nodes, i)[k].numReads > 0
    modifies graph
    ensures graph.nodes == SwapEdges(old(graph.nodes), i, j, k)
    ensures last <==> i == k
  {
    var _ := graph.DelEdge(i, j);
    var _ := graph.DelEdge(j, k);
    last := i == k;
    if !last {
      graph.AddEdge(i, k);
    }
  }

  lemma SwapGraph(pc: ParCopy, vals: seq<Src>, nodes: seq<CopyNode>, code: seq<Move>, i: nat, j: nat, k: nat)
    returns (after: seq<CopyNode>)
    requires Valid(pc) && Breaking(pc, vals, nodes, code)
    requires i < |nodes| && nodes[i].src == j && j < |nodes| && nodes[j].src == k
    requires CycleUsesSwap(pc, pc.pairs[i].dst.file)
    ensures nodes[j].numReads > 0 && Unlink(nodes, i)[k].numReads > 0
    ensures after == SwapEdges(nodes, i, j, k) && |after| == |nodes|
    ensures vals[j].FromReg? && vals[k].FromReg?
    ensures SwapsSparing(pc, code) ==> SwapsSparing(pc, code + [Swap(vals[j].reg, vals[k].reg)])
    ensures Breaking(pc, vals, after, code + [Swap(vals[j].reg, vals[k].reg)])
    ensures Linked(after) < Linked(nodes)
    ensures i == k <==> after[i].src < 0
  {
    hide SwapsSparing;
    SwapRoundGraph(nodes, i, j, k);
    after := SwapEdges(nodes, i, j, k);
    SwapRound(pc, vals, nodes, after, code, i, j, k);
    assert vals[j] == FromReg(pc.pairs[j].dst) && vals[k] == FromReg(pc.pairs[k].dst);
    assert j in Linked(nodes) && j !in Linked(after);
    if SwapsSparing(pc, code) { SparingSwap(pc, code, vals[j].reg, vals[k].reg); }
  }

  method SwapCycle(pc: ParCopy, graph: CopyGraph, vals: seq<Src>, i: nat, before: seq<Move>)
    returns (code: seq<Move>)
    requires Valid(pc) && Breaking(pc, vals, graph.nodes, before) && SwapsSparing(pc, before)
    requires i < |graph.nodes| && graph.nodes[i].src >= 0 && CycleUsesSwap(pc, pc.pairs[i].dst.file)
    modifies graph
    ensures Breaking(pc, vals, graph.nodes, code) && SwapsSparing(pc, code)
    ensures |graph.nodes| == old(|graph.nodes|)
    ensures Linked(graph.nodes) <= old(Linked(graph.nodes)) - {i}
  {
    code := before;
    var last := false;
    while !last
      invariant Breaking(pc, vals, graph.nodes, code) && SwapsSparing(pc, code)
      invariant |graph.nodes| == old(|graph.nodes|)
      invariant last <==> graph.nodes[i].src < 0
      invariant Linked(graph.nodes) <= old(Linked(graph.nodes))
      decreases !last, Linked(graph.nodes)
    {
      code, last := SwapOnce(pc, graph, vals, i, code);
    }
  }

  /** State inside the loop that breaks the cycle through `i` with temporary `t`. */
  ghost predicate Opened(pc: ParCopy, vals: seq<Src>, nodes: seq<CopyNode>, code: seq<Move>,
                         t: Reg, i: nat, p: nat)
    requires Valid(pc)
  {
    && WellFormed(nodes) && |nodes| == |vals| && Names(pc.pairs, vals) && TmpOutsideVals(pc, vals)
    && Framed(pc, code) && (Lowerable(pc) ==> AllOk(code)) && SameFile(pc, nodes)
    && OpenGraph(nodes, i, p) && OpenPending(pc.pairs, vals, nodes, code, t, i)
    && i < |pc.pairs| && p < |pc.pairs| && pc.pairs[p].dst.file == pc.pairs[i].dst.file
    && pc.tmp.Some? && t == pc.tmp.value.Comp(0)
    && (pc.pairs[i].dst.file == GPR || (pc.pairs[i].dst.file in {Bar, Mem} && pc.tmp.value.comps >= 2))
  }

  lemma OpenedFirst(pc: ParCopy, vals: seq<Src>, nodes: seq<CopyNode>, code: seq<Move>, i: nat)
    requires Valid(pc) && Breaking(pc, vals, nodes, code)
    requires i < |nodes| && nodes[i].src >= 0 && !CycleUsesSwap(pc, pc.pairs[i].dst.file)
    ensures pc.tmp.Some? && i < |pc.pairs|
    ensures var t := pc.tmp.value.Comp(0);
            && Opened(pc, vals, nodes, code + [Copy(t, FromReg(pc.pairs[i].dst))], t, i, i)
            && (SwapsSparing(pc, code) ==> SwapsSparing(pc, code + [Copy(t, FromReg(pc.pairs[i].dst))]))
  {
    hide SwapsSparing;
    if SwapsSparing(pc, code) { SparingCopies(pc, code, [Copy(pc.tmp.value.Comp(0), FromReg(pc.pairs[i].dst))]); }
    OpenCycle(pc, vals, nodes, code, pc.tmp.value.Comp(0), i);
  }

  /** What the loop emits for `p`, read from `j`. */
  function CycleCopy(pc: ParCopy, pReg: Reg, jReg: Reg): seq<Move>
    requires pReg.file in {Bar, Mem} ==> pc.tmp.Some? && pc.tmp.value.comps >= 2
  {
    if pReg.file in {Bar, Mem} then
      [Copy(pc.tmp.value.Comp(1), FromReg(jReg)), Copy(pReg, FromReg(pc.tmp.value.Comp(1)))]
    else
      [Copy(pReg, FromReg(jReg))]
  }

  lemma CycleCopyMoves(pc: ParCopy, code: seq<Move>, pReg: Reg, jReg: Reg)
    requires pReg.file in {Bar, Mem} ==> pc.tmp.Some? && pc.tmp.value.comps >= 2
    requires !IsTmp(pc.tmp, pReg)
    ensures Moves(pc, code, code + CycleCopy(pc, pReg, jReg), pReg, Origin(code, jReg))
    ensures pc.tmp.Some? && pc.tmp.value.comps > 0 ==>
              Origin(code + CycleCopy(pc, pReg, jReg), pc.tmp.value.Comp(0)) == Origin(code, pc.tmp.value.Comp(0))
  {
    if pReg.file in {Bar, Mem} {
      var ct := pc.tmp.value.Comp(1);
      CopyThroughTmpMoves(pc, code, pReg, ct, FromReg(jReg));
      assert code + [Copy(ct, FromReg(jReg))] + [Copy(pReg, FromReg(ct))] == code + CycleCopy(pc, pReg, jReg);
    } else {
      CopyMoves(pc, code, pReg, FromReg(jReg));
      if pc.tmp.Some? && pc.tmp.value.comps > 0 {
        OriginSnoc(code, Copy(pReg, FromReg(jReg)), pc.tmp.value.Comp(0));
      }
    }
  }

  lemma FramedMoves(pc: ParCopy, code: seq<Move>, after: seq<Move>, d: Reg, value: Src)
    requires Framed(pc, code) && Moves(pc, code, after, d, value) && IsDst(pc.pairs, d)
    ensures Framed(pc, after)
  {
  }

  lemma OpenedStepGraph(pc: ParCopy, nodes: seq<CopyNode>, i: nat, p: nat, j: nat)
    requires WellFormed(nodes) && SameFile(pc, nodes) && OpenGraph(nodes, i, p) && nodes[p].src == j && j != i
    ensures nodes[j].numReads > 0 && j < |pc.pairs|
    ensures var nodes' := Unlink(nodes, p);
            && WellFormed(nodes') && |nodes'| == |nodes| && SameFile(pc, nodes') && OpenGraph(nodes', i, j)
            && Linked(nodes') < Linked(nodes) && p !in Linked(nodes')
  {
    HasReads(nodes, p);
    UnlinkWellFormed(nodes, p);
    UnlinkEdges(nodes, p);
    OpenGraphStep(nodes, Unlink(nodes, p), i, p);
    assert p in Linked(nodes);
  }

  lemma OpenedStep(pc: ParCopy, vals: seq<Src>, nodes: seq<CopyNode>, code: seq<Move>, t: Reg, i: nat, p: nat, j: nat)
    requires Valid(pc) && Opened(pc, vals, nodes, code, t, i, p) && nodes[p].src == j && j != i
    ensures j < |pc.pairs| && nodes[j].numReads > 0 && vals[j] == FromReg(pc.pairs[j].dst)
    ensures Opened(pc, vals, Unlink(nodes, p), code + CycleCopy(pc, pc.pairs[p].dst, pc.pairs[j].dst), t, i, j)
    ensures Linked(Unlink(nodes, p)) < Linked(nodes) && p !in Linked(Unlink(nodes, p))
  {
    OpenedStepGraph(pc, nodes, i, p, j);
    OpenedStepCode(pc, vals, nodes, code, t, i, p, j);
  }

  lemma SparingCycle(pc: ParCopy, code: seq<Move>, pReg: Reg, jReg: Reg)
    requires SwapsSparing(pc, code) && (pReg.file in {Bar, Mem} ==> pc.tmp.Some? && pc.tmp.value.comps >= 2)
    ensures SwapsSparing(pc, code + CycleCopy(pc, pReg, jReg))
  {
    hide SwapsSparing;
    SparingCopies(pc, code, CycleCopy(pc, pReg, jReg));
  }

  /** In the files a cycle may use temporaries for, every copy of the loop is one
      the next pass accepts. */
  lemma CycleCopyOk(pc: ParCopy, code: seq<Move>, pReg: Reg, jReg: Reg)
    requires pReg.file == jReg.file && (pReg.file == GPR || (pReg.file in {Bar, Mem} && pc.tmp.Some? && pc.tmp.value.comps >= 2))
    requires pc.tmp.Some? ==> pc.tmp.value.file == GPR
    requires AllOk(code)
    ensures AllOk(code + CycleCopy(pc, pReg, jReg))
  {
  }

  lemma TmpCopyOk(code: seq<Move>, pReg: Reg, t: Reg)
    requires pReg.file in {GPR, Bar, Mem} && t.file == GPR && AllOk(code)
    ensures AllOk(code + [Copy(pReg, FromReg(t))])
  {
  }

  lemma OpenedStepCode(pc: ParCopy, vals: seq<Src>, nodes: seq<CopyNode>, code: seq<Move>, t: Reg, i: nat, p: nat, j: nat)
    requires Valid(pc) && Opened(pc, vals, nodes, code, t, i, p) && nodes[p].src == j && j != i
    requires j < |pc.pairs| && nodes[j].numReads > 0
    ensures vals[j] == FromReg(pc.pairs[j].dst)
    ensures var after := code + CycleCopy(pc, pc.pairs[p].dst, pc.pairs[j].dst);
            && Framed(pc, after) && (Lowerable(pc) ==> AllOk(after))
            && |Unlink(nodes, p)| == |vals| && OpenPending(pc.pairs, vals, Unlink(nodes, p), after, t, i)
  {
    var pReg, jReg := pc.pairs[p].dst, pc.pairs[j].dst;
    assert vals[j] == FromReg(jReg);
    var after := code + CycleCopy(pc, pReg, jReg);
    CycleCopyMoves(pc, code, pReg, jReg);
    FramedMoves(pc, code, after, pReg, Origin(code, jReg));
    if Lowerable(pc) { CycleCopyOk(pc, code, pReg, jReg); }
    UnlinkEdges(nodes, p);
    OpenPendingStep(pc, vals, nodes, Unlink(nodes, p), code, after, t, i, p);
  }

  lemma OpenedLastGraph(pc: ParCopy, nodes: seq<CopyNode>, i: nat, p: nat)
    requires WellFormed(nodes) && SameFile(pc, nodes) && OpenGraph(nodes, i, p) && nodes[p].src == i && i < |nodes|
    ensures nodes[i].numReads > 0
    ensures var nodes' := Unlink(nodes, p);
            && WellFormed(nodes') && |nodes'| == |nodes| && SameFile(pc, nodes') && CyclesOnly(nodes')
            && Linked(nodes') <= Linked(nodes) - {i}
  {
    HasReads(nodes, p);
    UnlinkWellFormed(nodes, p);
    UnlinkEdges(nodes, p);
    OpenGraphStep(nodes, Unlink(nodes, p), i, p);
  }

  lemma OpenedLastCode(pc: ParCopy, vals: seq<Src>, nodes: seq<CopyNode>, code: seq<Move>, t: Reg, i: nat, p: nat)
    requires Valid(pc) && Opened(pc, vals, nodes, code, t, i, p) && nodes[p].src == i && nodes[i].numReads > 0
    ensures var after := code + [Copy(pc.pairs[p].dst, FromReg(t))];
            && Framed(pc, after) && (Lowerable(pc) ==> AllOk(after))
            && |Unlink(nodes, p)| == |vals| && Pending(pc.pairs, vals, Unlink(nodes, p), after)
  {
    var pReg := pc.pairs[p].dst;
    var after := code + [Copy(pReg, FromReg(t))];
    UnlinkEdges(nodes, p);
    CopyMoves(pc, code, pReg, FromReg(t));
    if Lowerable(pc) { TmpCopyOk(code, pReg, t); }
    OpenPendingStep(pc, vals, nodes, Unlink(nodes, p), code, after, t, i, p);
    assert IsDst(pc.pairs, pReg);
    FramedMoves(pc, code, after, pReg, Origin(code, t));
  }

  lemma OpenedLast(pc: ParCopy, vals: seq<Src>, nodes: seq<CopyNode>, code: seq<Move>, t: Reg, i: nat, p: nat)
    requires Valid(pc) && Opened(pc, vals, nodes, code, t, i, p) && nodes[p].src == i
    ensures nodes[i].numReads > 0
    ensures Breaking(pc, vals, Unlink(nodes, p), code + [Copy(pc.pairs[p].dst, FromReg(t))])
    ensures Linked(Unlink(nodes, p)) <= Linked(nodes) - {i}
  {
    hide OpenGraph, OpenPending, Pending, SameFile, CyclesOnly, Framed, AllOk, Lowerable, WellFormed, Linked, TmpOutsideVals;
    OpenedLastGraph(pc, nodes, i, p);
    OpenedLastCode(pc, vals, nodes, code, t, i, p);
  }

  /** The body of the loop: fill `p` from `j` and go on there. */
  method TmpOnce(pc: ParCopy, graph: CopyGraph, vals: seq<Src>, ghost t: Reg, ghost i: nat,
                 p: nat, j: nat, before: seq<Move>)
    returns (code: seq<Move>)
    requires Valid(pc) && Opened(pc, vals, graph.nodes, before, t, i, p) && SwapsSparing(pc, before)
    requires graph.nodes[p].src == j && j != i
    modifies graph
    ensures Opened(pc, vals, graph.nodes, code, t, i, j) && SwapsSparing(pc, code)
    ensures |graph.nodes| == old(|graph.nodes|)
    ensures Linked(graph.nodes) < old(Linked(graph.nodes))
  {
    hide SwapsSparing;
    OpenedStep(pc, vals, graph.nodes, before, t, i, p, j);
    assert vals[p] == FromReg(pc.pairs[p].dst);
    SparingCycle(pc, before, vals[p].reg, vals[j].reg);
    code := before + CycleCopy(pc, vals[p].reg, vals[j].reg);
    var _ := graph.DelEdge(p, j);
  }

  method TmpCycle(pc: ParCopy, graph: CopyGraph, vals: seq<Src>, i: nat, before: seq<Move>)
    returns (code: seq<Move>)
    requires Valid(pc) && Breaking(pc, vals, graph.nodes, before) && SwapsSparing(pc, before)
    requires i < |graph.nodes| && graph.nodes[i].src >= 0 && !CycleUsesSwap(pc, pc.pairs[i].dst.file)
    modifies graph
    ensures Breaking(pc, vals, graph.nodes, code) && SwapsSparing(pc, code)
    ensures |graph.nodes| == old(|graph.nodes|)
    ensures Linked(graph.nodes) <= old(Linked(graph.nodes)) - {i}
  {
    hide SwapsSparing, Breaking, OpenPending, Framed, AllOk, Lowerable, TmpOutsideVals;
    OpenedFirst(pc, vals, graph.nodes, before, i);
    var t := pc.tmp.value.Comp(0);
    var p := i;
    code := before + [Copy(t, FromReg(pc.pairs[p].dst))];
    while graph.Source(p) != Some(i)
      invariant Opened(pc, vals, graph.nodes, code, t, i, p) && SwapsSparing(pc, code)
      invariant |graph.nodes| == old(|graph.nodes|)
      invariant Linked(graph.nodes) <= old(Linked(graph.nodes))
      decreases Linked(graph.nodes)
    {
      var j := graph.Source(p).value;
      code := TmpOnce(pc, graph, vals, t, i, p, j, code);
      p := j;
    }
    OpenedLast(pc, vals, graph.nodes, code, t, i, p);
    SparingCopies(pc, code, [Copy(pc.pairs[p].dst, FromReg(t))]);
    code := code + [Copy(pc.pairs[p].dst, FromReg(t))];
    var _ := graph.DelEdge(p, i);
  }

  /** The copies the emitted code performs, all at once. */
  ghost predicate Implements(pc: ParCopy, code: seq<Move>) {
    && (forall i :: 0 <= i < |pc.pairs| ==> Origin(code, pc.pairs[i].dst) == pc.pairs[i].src)
    && Framed(pc, code)
  }

  lemma ValsOutsideTmp(pc: ParCopy, vals: seq<Src>)
    requires TmpOutside(pc) && ValsFromCopy(pc.pairs, vals)
    ensures TmpOutsideVals(pc, vals)
  {
  }

  lemma NothingPending(pc: ParCopy, vals: seq<Src>, nodes: seq<CopyNode>, code: seq<Move>)
    requires Meaning(pc, vals, nodes, code)
    requires forall d :: d in Linked(nodes) ==> d >= |pc.pairs|
    ensures Implements(pc, code)
  {
    forall d | 0 <= d < |pc.pairs|
      ensures nodes[d].src < 0
    {
      assert d !in Linked(nodes);
    }
  }

  method LowerParCopy(pc: ParCopy) returns (code: seq<Move>)
    requires Valid(pc)
    ensures Implements(pc, code) && SwapsSparing(pc, code)
    ensures Lowerable(pc) ==> AllOk(code)
  {
    var graph, vals := BuildGraph(pc);
    ValsOutsideTmp(pc, vals);
    code := DrainReady(pc, graph, vals);
    LeftoverSameFile(pc, vals, graph.nodes, code);
    code := BreakCycles(pc, graph, vals, code);
    NothingPending(pc, vals, graph.nodes, code);
  }

  method BreakAt(pc: ParCopy, graph: CopyGraph, vals: seq<Src>, i: nat, before: seq<Move>)
    returns (code: seq<Move>)
    requires Valid(pc) && Breaking(pc, vals, graph.nodes, before) && SwapsSparing(pc, before) && i < |pc.pairs|
    modifies graph
    ensures Breaking(pc, vals, graph.nodes, code) && SwapsSparing(pc, code)
    ensures Linked(graph.nodes) <= old(Linked(graph.nodes)) - {i}
  {
    assert vals[i] == FromReg(pc.pairs[i].dst);
    var file := vals[i].reg.file;
    if graph.Source(i).None? {
      code := before;
    } else if CycleUsesSwap(pc, file) {
      code := SwapCycle(pc, graph, vals, i, before);
    } else {
      code := TmpCycle(pc, graph, vals, i, before);
    }
  }

  lemma Without(left: set<int>, less: set<int>, i: int)
    requires less <= left - {i} && forall d :: d in left ==> d >= i
    ensures forall d :: d in less ==> d >= i + 1
  {
    forall d | d in less
      ensures d >= i + 1
    {
      assert d in left - {i};
    }
  }

  /** The loop over what is left, one cycle at a time. */
  method BreakCycles(pc: ParCopy, graph: CopyGraph, vals: seq<Src>, before: seq<Move>)
    returns (code: seq<Move>)
    requires Valid(pc) && Breaking(pc, vals, graph.nodes, before) && SwapsSparing(pc, before)
    modifies graph
    ensures Breaking(pc, vals, graph.nodes, code) && SwapsSparing(pc, code)
    ensures forall d :: d in Linked(graph.nodes) ==> d >= |pc.pairs|
  {
    code := before;
    ghost var left := Linked(graph.nodes);
    for i := 0 to |pc.pairs|
      invariant Breaking(pc, vals, graph.nodes, code) && SwapsSparing(pc, code)
      invariant left == Linked(graph.nodes)
      invariant forall d :: d in left ==> d >= i
    {
      code := BreakAt(pc, graph, vals, i, code);
      ghost var less := Linked(graph.nodes);
      Without(left, less, i);
      left := less;
    }
  }

  /** For every initial state the emitted sequence is the simultaneous copy. */
  lemma ImplementsParallel(pc: ParCopy, code: seq<Move>, s: State)
    requires Implements(pc, code)
    ensures ParDone(pc, s, Run(code, s))
  {
    forall r: Reg
      ensures Run(code, s)(r) == Eval(Origin(code, r), s)
    {
      OriginSound(code, s, r);
    }
  }

  /** Both lowering passes, one after the other: the machine instructions do the
      simultaneous copy on the registers and memory slots of any machine state. */
  lemma ParallelOnMachine(pc: ParCopy, code: seq<Move>, slmStart: nat, ops: seq<LowerCopySwap.MachOp>,
                          m: LowerCopySwap.Machine)
    requires Implements(pc, code) && LowerCopySwap.Simulates(slmStart, ops, code)
    ensures ParDone(pc, LowerCopySwap.Abs(slmStart, m),
                    LowerCopySwap.Abs(slmStart, LowerCopySwap.ExecAll(ops, m)))
  {
    var s := LowerCopySwap.Abs(slmStart, m);
    ImplementsParallel(pc, code, s);
    var t := LowerCopySwap.Abs(slmStart, LowerCopySwap.ExecAll(ops, m));
    assert forall r :: t(r) == Run(code, s)(r);
  }
}