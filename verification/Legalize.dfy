/** The loop at the end of `legalize_instr` of `legalize.rs`: vector operands are
    made identical or disjoint by copying components. */
module Legalize {
  import opened Ir
  import opened AssignRegs
  import opened InstrMeaning

  /** A copy of one value into a new one, before the instruction. */
  datatype SsaCopy = SsaCopy(dst: SSA, src: SSA)

  function RunCopies(copies: seq<SsaCopy>, val: Values): Values
    requires forall i :: 0 <= i < |copies| ==> copies[i].src in val
  {
    if copies == [] then val
    else
      var last := copies[|copies| - 1];
      RunCopies(copies[..|copies| - 1], val)[last.dst := val[last.src]]
  }

  predicate Below(vec: seq<SSA>, next: SSA) {
    forall s :: s in vec ==> s < next
  }

  /** Each copy makes a value of its own, numbered from `first` on, of an old one. */
  ghost predicate CopiesOk(copies: seq<SsaCopy>, first: SSA) {
    forall i :: 0 <= i < |copies| ==> copies[i].dst == first + i && copies[i].src < first
  }

  /** Component by component `new` is `vec` or a copy of it. */
  ghost predicate CopyOf(vec: seq<SSA>, out: seq<SSA>, copies: seq<SsaCopy>) {
    |out| == |vec| && forall c :: 0 <= c < |vec| ==> out[c] == vec[c] || SsaCopy(out[c], vec[c]) in copies
  }

  lemma {:induction false} CopiesKeep(copies: seq<SsaCopy>, val: Values, first: SSA, s: SSA)
    requires CopiesOk(copies, first) && forall i :: 0 <= i < |copies| ==> copies[i].src in val
    requires s < first && s in val
    ensures s in RunCopies(copies, val) && RunCopies(copies, val)[s] == val[s]
  {
    if copies != [] {
      var rest := copies[..|copies| - 1];
      assert CopiesOk(rest, first);
      CopiesKeep(rest, val, first, s);
    }
  }

  lemma {:induction false} CopyValue(copies: seq<SsaCopy>, val: Values, first: SSA, k: nat)
    requires CopiesOk(copies, first) && forall i :: 0 <= i < |copies| ==> copies[i].src in val
    requires k < |copies|
    ensures copies[k].dst in RunCopies(copies, val) && RunCopies(copies, val)[copies[k].dst] == val[copies[k].src]
  {
    var rest := copies[..|copies| - 1];
    if k < |rest| {
      assert CopiesOk(rest, first);
      CopyValue(rest, val, first, k);
      assert rest[k] == copies[k];
    }
  }

  /** A copied vector has the values of the original. */
  lemma CopyOfValues(vec: seq<SSA>, out: seq<SSA>, copies: seq<SsaCopy>, val: Values, first: SSA)
    requires CopiesOk(copies, first) && forall i :: 0 <= i < |copies| ==> copies[i].src in val
    requires CopyOf(vec, out, copies) && Below(vec, first) && forall s :: s in vec ==> s in val
    ensures forall s :: s in out ==> s in RunCopies(copies, val)
    ensures VecValues(out, RunCopies(copies, val)) == VecValues(vec, val)
  {
    forall c | 0 <= c < |vec|
      ensures out[c] in RunCopies(copies, val) && RunCopies(copies, val)[out[c]] == val[vec[c]]
    {
      assert vec[c] in vec;
      if out[c] == vec[c] {
        CopiesKeep(copies, val, first, vec[c]);
      } else {
        var k :| 0 <= k < |copies| && copies[k] == SsaCopy(out[c], vec[c]);
        CopyValue(copies, val, first, k);
      }
    }
  }

  // ---------------------------------------------------------------------------
  // The loop
  // ---------------------------------------------------------------------------

  /** The vectors done so far and what they became: no two results share a component
      unless they are the same vector's, and original components are all noted. */
  ghost predicate MapOk(m: map<seq<SSA>, seq<SSA>>, comps: set<SSA>, copies: seq<SsaCopy>, first: SSA) {
    && CopiesOk(copies, first)
    && (forall v :: v in m ==> |v| > 1 && Below(v, first) && Elements(v) <= comps && CopyOf(v, m[v], copies) && OutOk(m[v], comps, first, first + |copies|) && NoRepeats(m[v]))
    && (forall v, w :: v in m && w in m && v != w ==> Elements(m[v]) !! Elements(m[w]))
  }

  /** Components are old ones that are noted, or copies. */
  ghost predicate OutOk(out: seq<SSA>, comps: set<SSA>, first: SSA, next: SSA) {
    forall s :: s in out ==> (s < first && s in comps) || first <= s < next
  }

  /** Half-way through a vector: the first `c` components are settled. */
  ghost predicate VecOk(m: map<seq<SSA>, seq<SSA>>, vec: seq<SSA>, out: seq<SSA>, c: nat, comps: set<SSA>, copies: seq<SsaCopy>, first: SSA) {
    && MapOk(m, comps, copies, first) && c <= |vec| == |out|
    && (forall d :: 0 <= d < c ==> vec[d] in comps && (out[d] == vec[d] || SsaCopy(out[d], vec[d]) in copies))
    && OutOk(out[..c], comps, first, first + |copies|) && NoRepeats(out[..c])
    && (forall v :: v in m ==> Elements(m[v]) !! Elements(out[..c]))
    && (forall d :: c <= d < |vec| ==> out[d] == vec[d])
  }

  lemma MapGrows(m: map<seq<SSA>, seq<SSA>>, comps: set<SSA>, comps': set<SSA>, copies: seq<SsaCopy>, copies': seq<SsaCopy>, first: SSA)
    requires MapOk(m, comps, copies, first) && comps <= comps' && copies <= copies' && CopiesOk(copies', first)
    ensures MapOk(m, comps', copies', first)
  {
    forall v | v in m
      ensures CopyOf(v, m[v], copies')
    {
      forall c | 0 <= c < |v|
        ensures m[v][c] == v[c] || SsaCopy(m[v][c], v[c]) in copies'
      {
        if m[v][c] != v[c] {
          var k :| 0 <= k < |copies| && copies[k] == SsaCopy(m[v][c], v[c]);
          assert copies'[k] == copies[k];
        }
      }
    }
  }

  /** The next component, copied if it is taken already. */
  lemma CompNext(m: map<seq<SSA>, seq<SSA>>, vec: seq<SSA>, out: seq<SSA>, c: nat, comps: set<SSA>, copies: seq<SsaCopy>, first: SSA,
                 out': seq<SSA>, comps': set<SSA>, copies': seq<SsaCopy>)
    requires VecOk(m, vec, out, c, comps, copies, first) && c < |vec| && vec[c] < first
    requires if vec[c] in comps then
               out' == out[c := first + |copies|] && comps' == comps && copies' == copies + [SsaCopy(first + |copies|, vec[c])]
             else
               out' == out && comps' == comps + {vec[c]} && copies' == copies
    ensures VecOk(m, vec, out', c + 1, comps', copies', first)
  {
    MapGrows(m, comps, comps', copies, copies', first);
    hide MapOk;
    assert out'[..c + 1] == out[..c] + [out'[c]];
    assert vec[c] in comps ==> copies'[|copies|] == SsaCopy(out'[c], vec[c]);
    forall d | 0 <= d < c
      ensures SsaCopy(out[d], vec[d]) in copies ==> SsaCopy(out'[d], vec[d]) in copies'
    {
    }
    forall d | 0 <= d < c
      ensures out[..c][d] != out'[c]
    {
      assert out[..c][d] in out[..c];
    }
    assert forall v :: v in m ==> Elements(m[v]) !! Elements(out'[..c + 1]) by {
      forall v | v in m
        ensures out'[c] !in m[v]
      {
        NotInMap(m, v, comps, copies, first, out'[c]);
      }
    }
  }

  lemma NotInMap(m: map<seq<SSA>, seq<SSA>>, v: seq<SSA>, comps: set<SSA>, copies: seq<SsaCopy>, first: SSA, s: SSA)
    requires MapOk(m, comps, copies, first) && v in m && (s == first + |copies| || (s < first && s !in comps))
    ensures s !in m[v]
  {
  }

  lemma VecDone(m: map<seq<SSA>, seq<SSA>>, vec: seq<SSA>, out: seq<SSA>, comps: set<SSA>, copies: seq<SsaCopy>, first: SSA)
    requires VecOk(m, vec, out, |vec|, comps, copies, first) && |vec| > 1 && Below(vec, first) && vec !in m
    ensures MapOk(m[vec := out], comps, copies, first)
  {
    assert out[..|vec|] == out;
  }

  /** Noted components come from vectors done, all of them sources. */
  ghost predicate Traced(m: map<seq<SSA>, seq<SSA>>, comps: set<SSA>, srcs: seq<seq<SSA>>, part: seq<SSA>) {
    && (forall v :: v in m ==> v in srcs && |v| > 1)
    && (forall s :: s in comps ==> s in part || exists v :: v in m && s in v)
  }

  /** In legal sources no component is met twice. */
  lemma LegalIsNew(m: map<seq<SSA>, seq<SSA>>, comps: set<SSA>, srcs: seq<seq<SSA>>, vec: seq<SSA>, c: nat)
    requires Legal(srcs) && c < |vec| && Traced(m, comps, srcs, vec[..c]) && vec in srcs && |vec| > 1 && vec !in m
    ensures vec[c] !in comps
  {
    var i :| 0 <= i < |srcs| && srcs[i] == vec;
    if vec[c] in comps && vec[c] !in vec[..c] {
      var v :| v in m && vec[c] in v;
      var j :| 0 <= j < |srcs| && srcs[j] == v;
      SharedIsSame(srcs, i, j, vec[c]);
    }
  }

  /** One vector source. */
  method CopyVector(vec: seq<SSA>, m: map<seq<SSA>, seq<SSA>>, comps0: set<SSA>, copies0: seq<SsaCopy>, first: SSA, ghost srcs: seq<seq<SSA>>)
    returns (out: seq<SSA>, comps: set<SSA>, copies: seq<SsaCopy>)
    requires MapOk(m, comps0, copies0, first) && |vec| > 1 && Below(vec, first) && vec !in m
    requires Traced(m, comps0, srcs, []) && vec in srcs && (Legal(srcs) ==> copies0 == [])
    ensures MapOk(m[vec := out], comps, copies, first) && Traced(m[vec := out], comps, srcs, [])
    ensures Legal(srcs) ==> copies == []
  {
    out, comps, copies := vec, comps0, copies0;
    assert VecOk(m, vec, out, 0, comps, copies, first);
    for c := 0 to |vec|
      invariant VecOk(m, vec, out, c, comps, copies, first) && Traced(m, comps, srcs, vec[..c])
      invariant Legal(srcs) ==> copies == []
    {
      hide VecOk, MapOk, Legal;
      assert vec[c] in vec && vec[..c + 1] == vec[..c] + [vec[c]];
      ghost var out0, comps0, copies0 := out, comps, copies;
      if Legal(srcs) { LegalIsNew(m, comps, srcs, vec, c); }
      VecSizes(m, vec, out, c, comps, copies, first);
      if vec[c] in comps {
        var copy := first + |copies|;
        copies := copies + [SsaCopy(copy, vec[c])];
        out := out[c := copy];
      } else {
        comps := comps + {vec[c]};
      }
      CompNext(m, vec, out0, c, comps0, copies0, first, out, comps, copies);
    }
    assert vec[..|vec|] == vec;
    VecDone(m, vec, out, comps, copies, first);
  }

  lemma VecSizes(m: map<seq<SSA>, seq<SSA>>, vec: seq<SSA>, out: seq<SSA>, c: nat, comps: set<SSA>, copies: seq<SsaCopy>, first: SSA)
    requires VecOk(m, vec, out, c, comps, copies, first)
    ensures |out| == |vec|
  {
  }

  /** What each source has become after the first `n`. */
  ghost predicate Renamed(srcs: seq<seq<SSA>>, outs: seq<seq<SSA>>, m: map<seq<SSA>, seq<SSA>>, n: nat) {
    && |outs| == |srcs| && n <= |srcs|
    && (forall i :: 0 <= i < n && |srcs[i]| > 1 ==> srcs[i] in m && outs[i] == m[srcs[i]])
    && (forall i :: 0 <= i < |srcs| && (n <= i || |srcs[i]| <= 1) ==> outs[i] == srcs[i])
  }

  lemma RenamedNext(srcs: seq<seq<SSA>>, outs: seq<seq<SSA>>, outs': seq<seq<SSA>>, m: map<seq<SSA>, seq<SSA>>, m': map<seq<SSA>, seq<SSA>>, n: nat)
    requires Renamed(srcs, outs, m, n) && n < |srcs|
    requires forall v :: v in m ==> v in m' && m'[v] == m[v]
    requires if |srcs[n]| > 1 then srcs[n] in m' && outs' == outs[n := m'[srcs[n]]] else outs' == outs
    ensures Renamed(srcs, outs', m', n + 1)
  {
  }

  /** Vector operands that are legal for the allocator, and the copies that make
      them so: every operand keeps its values, and nothing is copied unless two
      different vectors shared a component or one repeated one. */
  method LegalizeVectors(srcs: seq<seq<SSA>>, first: SSA) returns (outs: seq<seq<SSA>>, copies: seq<SsaCopy>)
    requires forall i :: 0 <= i < |srcs| ==> Below(srcs[i], first)
    ensures Legal(outs) && |outs| == |srcs| && CopiesOk(copies, first)
    ensures forall i :: 0 <= i < |srcs| ==> CopyOf(srcs[i], outs[i], copies)
    ensures copies == [] <==> Legal(srcs)
  {
    outs, copies := srcs, [];
    var m: map<seq<SSA>, seq<SSA>>, comps: set<SSA> := map[], {};
    for i := 0 to |srcs|
      invariant MapOk(m, comps, copies, first) && Traced(m, comps, srcs, []) && Renamed(srcs, outs, m, i)
      invariant Legal(srcs) ==> copies == []
    {
      hide MapOk, Legal, Traced;
      ghost var outs0, m0 := outs, m;
      if |srcs[i]| > 1 {
        if srcs[i] !in m {
          var out;
          out, comps, copies := CopyVector(srcs[i], m, comps, copies, first, srcs);
          m := m[srcs[i] := out];
        }
        outs := outs[i := m[srcs[i]]];
      }
      RenamedNext(srcs, outs0, outs, m0, m, i);
    }
    RenamedLegal(srcs, outs, m, comps, copies, first);
  }

  lemma RenamedLegal(srcs: seq<seq<SSA>>, outs: seq<seq<SSA>>, m: map<seq<SSA>, seq<SSA>>, comps: set<SSA>, copies: seq<SsaCopy>, first: SSA)
    requires MapOk(m, comps, copies, first) && Renamed(srcs, outs, m, |srcs|)
    ensures Legal(outs)
    ensures forall i :: 0 <= i < |srcs| ==> CopyOf(srcs[i], outs[i], copies)
    ensures copies == [] ==> Legal(srcs)
  {
    forall i | 0 <= i < |srcs|
      ensures CopyOf(srcs[i], outs[i], copies) && (copies == [] ==> outs[i] == srcs[i])
    {
      if |srcs[i]| > 1 { assert CopyOf(srcs[i], m[srcs[i]], copies); }
    }
    forall i, j | 0 <= i < |outs| && 0 <= j < |outs| && |outs[i]| > 1 && |outs[j]| > 1
      ensures outs[i] == outs[j] || Elements(outs[i]) !! Elements(outs[j])
    {
      assert |outs[i]| == |srcs[i]| && |outs[j]| == |srcs[j]|;
    }
    if copies == [] { assert outs == srcs; }
  }

  // ---------------------------------------------------------------------------
  // What legalization means for the instruction
  // ---------------------------------------------------------------------------

  /** The operands of each file are operands of the instruction. */
  ghost predicate Grouped(parts: seq<Part>, srcs: seq<seq<SSA>>, pick: seq<seq<nat>>) {
    && |pick| == |parts|
    && forall k :: 0 <= k < |parts| ==> GroupedPart(parts[k], srcs, pick[k])
  }

  ghost predicate GroupedPart(part: Part, srcs: seq<seq<SSA>>, pick: seq<nat>) {
    |pick| == |part.srcs| && forall j :: 0 <= j < |pick| ==> pick[j] < |srcs| && part.srcs[j] == srcs[pick[j]]
  }

  /** The legal instruction: the same but for its operands and what dies. */
  ghost predicate SameBut(i: Instr, legal: Instr) {
    && |legal.parts| == |i.parts| && legal.compute == i.compute
    && forall k :: 0 <= k < |i.parts| ==> SamePart(i.parts[k], legal.parts[k])
  }

  ghost predicate SamePart(p: Part, q: Part) {
    q.pred == p.pred && q.dsts == p.dsts && q.scalars == p.scalars
  }

  ghost predicate AllCopied(srcs: seq<seq<SSA>>, outs: seq<seq<SSA>>, copies: seq<SsaCopy>, val: Values, first: SSA) {
    && CopiesOk(copies, first) && (forall i :: 0 <= i < |copies| ==> copies[i].src in val) && |outs| == |srcs|
    && forall i :: 0 <= i < |srcs| ==> CopyOf(srcs[i], outs[i], copies) && Below(srcs[i], first)
  }

  lemma LegalPartReads(p: Part, q: Part, srcs: seq<seq<SSA>>, outs: seq<seq<SSA>>, pick: seq<nat>, copies: seq<SsaCopy>, val: Values, first: SSA)
    requires AllCopied(srcs, outs, copies, val, first) && SamePart(p, q) && GroupedPart(p, srcs, pick) && GroupedPart(q, outs, pick)
    requires PartIn(p, val) && (p.pred.Some? ==> p.pred.value < first)
    ensures PartIn(q, RunCopies(copies, val)) && PartValues(q, RunCopies(copies, val)) == PartValues(p, val)
  {
    var after := RunCopies(copies, val);
    hide RunCopies, CopyOf, CopiesOk;
    forall j | 0 <= j < |p.srcs|
      ensures (forall s :: s in q.srcs[j] ==> s in after) && VecValues(q.srcs[j], after) == VecValues(p.srcs[j], val)
    {
      CopyOfValues(p.srcs[j], q.srcs[j], copies, val, first);
    }
    if p.pred.Some? { CopiesKeep(copies, val, first, p.pred.value); }
  }

  /** Behind the copies the legal instruction reads what the instruction would have read,
      in every file, and its operands are legal there. */
  lemma LegalReads(i: Instr, legal: Instr, srcs: seq<seq<SSA>>, outs: seq<seq<SSA>>, pick: seq<seq<nat>>, copies: seq<SsaCopy>, val: Values, first: SSA)
    requires AllCopied(srcs, outs, copies, val, first) && Legal(outs) && SameBut(i, legal)
    requires Grouped(i.parts, srcs, pick) && Grouped(legal.parts, outs, pick) && OperandsIn(i, val)
    requires forall k :: 0 <= k < |i.parts| && i.parts[k].pred.Some? ==> i.parts[k].pred.value < first
    ensures OperandsIn(legal, RunCopies(copies, val)) && OperandValues(legal, RunCopies(copies, val)) == OperandValues(i, val)
    ensures forall k :: 0 <= k < |legal.parts| ==> Legal(legal.parts[k].srcs)
  {
    CopiesOkOf(srcs, outs, copies, val, first);
    hide RunCopies, CopiesOk, AllCopied, PartIn, PartValues, Legal, GroupedPart, SamePart;
    forall k | 0 <= k < |i.parts|
      ensures PartIn(legal.parts[k], RunCopies(copies, val)) && PartValues(legal.parts[k], RunCopies(copies, val)) == PartValues(i.parts[k], val)
      ensures Legal(legal.parts[k].srcs)
    {
      assert PartIn(i.parts[k], val) && SamePart(i.parts[k], legal.parts[k]);
      assert GroupedPart(i.parts[k], srcs, pick[k]) && GroupedPart(legal.parts[k], outs, pick[k]);
      LegalPartReads(i.parts[k], legal.parts[k], srcs, outs, pick[k], copies, val, first);
      PartLegal(legal.parts[k], outs, pick[k]);
    }
  }

  lemma PartLegal(part: Part, outs: seq<seq<SSA>>, pick: seq<nat>)
    requires Legal(outs) && GroupedPart(part, outs, pick)
    ensures Legal(part.srcs)
  {
  }

  lemma SameResults(i: Instr, legal: Instr)
    requires SameBut(i, legal)
    ensures legal.Results() == i.Results() && (i.Total() ==> legal.Total())
  {
    forall k: nat | k < |i.parts|
      ensures legal.parts[k].Results() == i.parts[k].Results()
    {
      assert SamePart(i.parts[k], legal.parts[k]);
    }
    forall s | s in i.Results()
      ensures s in legal.Results()
    {
      var k: nat :| k < |i.parts| && s in i.parts[k].Results();
      assert s in legal.parts[k].Results();
    }
  }

  /** So it gives the same results, and values that outlive it are what they were. */
  lemma LegalMeansSame(i: Instr, legal: Instr, srcs: seq<seq<SSA>>, outs: seq<seq<SSA>>, pick: seq<seq<nat>>, copies: seq<SsaCopy>, val: Values, first: SSA)
    requires AllCopied(srcs, outs, copies, val, first) && Legal(outs) && SameBut(i, legal) && i.Total()
    requires Grouped(i.parts, srcs, pick) && Grouped(legal.parts, outs, pick) && OperandsIn(i, val)
    requires forall k :: 0 <= k < |i.parts| && i.parts[k].pred.Some? ==> i.parts[k].pred.value < first
    requires forall s :: s in val ==> s < first && s !in i.Results()
    ensures legal.Total() && OperandsIn(legal, RunCopies(copies, val))
    ensures var after := Eval1(legal, RunCopies(copies, val));
            && (forall s :: s in i.Results() ==> s in after && after[s] == Eval1(i, val)[s])
            && (forall s :: s in val && s !in legal.Killed() ==> s in after && after[s] == val[s])
  {
    LegalReads(i, legal, srcs, outs, pick, copies, val, first);
    SameResults(i, legal);
    hide AllCopied, Legal, SameBut, Grouped, OperandsIn, Instr.Results, Instr.Total;
    forall s | s in val && s !in legal.Killed()
      ensures s in Eval1(legal, RunCopies(copies, val)) && Eval1(legal, RunCopies(copies, val))[s] == val[s]
    {
      CopiesOkOf(srcs, outs, copies, val, first);
      CopiesKeep(copies, val, first, s);
    }
  }

  lemma CopiesOkOf(srcs: seq<seq<SSA>>, outs: seq<seq<SSA>>, copies: seq<SsaCopy>, val: Values, first: SSA)
    requires AllCopied(srcs, outs, copies, val, first)
    ensures CopiesOk(copies, first) && forall i :: 0 <= i < |copies| ==> copies[i].src in val
  {
  }
}
