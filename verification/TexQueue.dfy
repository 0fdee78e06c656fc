/** The texture queue of `calc_instr_deps.rs`: an abstract queue that is simulated
    along the program, the hardware queue it stands for, and the `texdepbar`
    barriers that keep instructions off registers still being fetched. */
module TexQueue {
  import opened Wrappers

  /** `OpTexDepBar::MAX_TEXTURES_LEFT`. */
  const MAX_LEFT := 62

  /** A run of registers; the pass looks at the index only, never at the file. */
  datatype RegRange = RegRange(base: nat, comps: nat) {
    predicate Has(r: nat) {
      base <= r < base + comps
    }
  }

  /** Operands and results as the pass visits them; a texture operation queues its
      first result. */
  datatype Instr = Instr(regs: seq<RegRange>, queued: Option<RegRange>)

  // ---------------------------------------------------------------------------
  // The abstract queue
  // ---------------------------------------------------------------------------

  /** For each register that may be in flight the least position it may have, and
      the greatest length the queue may have. */
  datatype Sim = Sim(pos: map<nat, nat>, maxLen: nat)

  const EMPTY := Sim(map[], 0)

  /** Positions are below the length, and the length fits the hardware. */
  ghost predicate Bounded(s: Sim) {
    s.maxLen <= MAX_LEFT + 1 && forall r :: r in s.pos ==> s.pos[r] < s.maxLen
  }

  function MinOpt(a: Option<nat>, b: Option<nat>): Option<nat> {
    match (a, b)
    case (None, _) => b
    case (_, None) => a
    case (Some(x), Some(y)) => Some(if x <= y then x else y)
  }

  function PosOf(pos: map<nat, nat>, r: nat): Option<nat> {
    if r in pos then Some(pos[r]) else None
  }

  /** The least position any register of the range may have. */
  function MinPos(pos: map<nat, nat>, base: nat, comps: nat): Option<nat> {
    if comps == 0 then None else MinOpt(MinPos(pos, base, comps - 1), PosOf(pos, base + comps - 1))
  }

  lemma {:induction false} MinPosLeast(pos: map<nat, nat>, base: nat, comps: nat)
    ensures var p := MinPos(pos, base, comps);
            && (p.None? <==> forall r: nat :: base <= r < base + comps ==> r !in pos)
            && (p.Some? ==> exists r: nat :: base <= r < base + comps && r in pos && pos[r] == p.value)
            && (p.Some? ==> forall r: nat :: base <= r < base + comps && r in pos ==> p.value <= pos[r])
  {
    if comps > 0 { MinPosLeast(pos, base, comps - 1); }
  }

  function FlushAfter(s: Sim, p: nat): Sim {
    Sim(map r | r in s.pos && s.pos[r] < p :: s.pos[r], if s.maxLen <= p then s.maxLen else p)
  }

  function Flush(s: Sim, reg: RegRange): (Sim, Option<nat>) {
    match MinPos(s.pos, reg.base, reg.comps)
    case None => (s, None)
    case Some(p) => (FlushAfter(s, p), Some(p))
  }

  function FlushAll(s: Sim, regs: seq<RegRange>, n: nat): (Sim, Option<nat>)
    requires n <= |regs|
  {
    if n == 0 then (s, None)
    else
      var (s1, a) := FlushAll(s, regs, n - 1);
      var (s2, b) := Flush(s1, regs[n - 1]);
      (s2, MinOpt(a, b))
  }

  function PushFront(s: Sim, reg: RegRange): Sim {
    Sim((map r | r in s.pos :: s.pos[r] + 1) + (map r: nat | reg.base <= r < reg.base + reg.comps && reg.Has(r) :: 0), s.maxLen + 1)
  }

  function Push(s: Sim, reg: RegRange): (Sim, Option<nat>) {
    if s.maxLen > MAX_LEFT then (PushFront(FlushAfter(s, MAX_LEFT), reg), Some(MAX_LEFT)) else (PushFront(s, reg), None)
  }

  function Visit(s: Sim, i: Instr): (Sim, Option<nat>) {
    var (s1, flush) := FlushAll(s, i.regs, |i.regs|);
    match i.queued
    case None => (s1, flush)
    case Some(reg) =>
      var (s2, push) := Push(s1, reg);
      (s2, if flush.Some? then flush else push)
  }

  function MergePos(p: map<nat, nat>, q: map<nat, nat>): map<nat, nat> {
    map r | r in p.Keys + q.Keys :: MinOpt(PosOf(p, r), PosOf(q, r)).value
  }

  function Merge(a: Sim, b: Sim): Sim {
    Sim(MergePos(a.pos, b.pos), if a.maxLen <= b.maxLen then b.maxLen else a.maxLen)
  }

  // ---------------------------------------------------------------------------
  // The hardware queue
  // ---------------------------------------------------------------------------

  /** Fetches in flight, newest first: the registers each will write. */
  type Queue = seq<RegRange>

  /** Fetches finish oldest first, any number at any time. */
  ghost predicate Retires(q: Queue, q': Queue) {
    |q'| <= |q| && q' == q[..|q'|]
  }

  ghost predicate InFlight(q: Queue, r: nat) {
    exists p :: 0 <= p < |q| && q[p].Has(r)
  }

  /** The abstract queue errs on the safe side only: every register in flight is
      known, at no greater position than it has, and the queue is no longer than
      thought. */
  ghost predicate Covers(s: Sim, q: Queue) {
    |q| <= s.maxLen && forall p: nat, r: nat :: p < |q| && q[p].Has(r) ==> r in s.pos && s.pos[r] <= p
  }

  /** An instruction goes ahead when the barrier before it lets it: fetches retire
      until the queue is as short as the barrier asks. */
  ghost predicate Issues(q: Queue, bar: Option<nat>, q1: Queue) {
    Retires(q, q1) && (bar.Some? ==> |q1| <= bar.value)
  }

  /** Then a texture operation joins the queue. */
  function After(q: Queue, i: Instr): Queue {
    match i.queued
    case None => q
    case Some(reg) => [reg] + q
  }

  lemma CoversRetired(s: Sim, q: Queue, q': Queue)
    requires Covers(s, q) && Retires(q, q')
    ensures Covers(s, q')
  {
    forall p: nat, r: nat | p < |q'| && q'[p].Has(r)
      ensures r in s.pos && s.pos[r] <= p
    {
      assert q'[p] == q[p];
    }
  }

  lemma FlushCovers(s: Sim, q: Queue, n: nat)
    requires Covers(s, q) && |q| <= n
    ensures Covers(FlushAfter(s, n), q)
  {
  }

  lemma FlushOk(s: Sim, n: nat)
    requires Bounded(s)
    ensures Bounded(FlushAfter(s, n)) && FlushAfter(s, n).maxLen <= n
  {
  }

  lemma FlushClears(s: Sim, reg: RegRange)
    ensures var (s', p) := Flush(s, reg);
            && (p.None? ==> s' == s)
            && (p.Some? ==> s' == FlushAfter(s, p.value) && exists r :: r in s.pos && s.pos[r] == p.value)
    ensures forall r: nat :: reg.Has(r) ==> r !in Flush(s, reg).0.pos
  {
    var p := Flush(s, reg).1;
    MinPosLeast(s.pos, reg.base, reg.comps);
    if p.Some? {
      var r :| reg.base <= r < reg.base + reg.comps && r in s.pos && s.pos[r] == p.value;
    }
  }

  lemma FlushTwice(s: Sim, p: nat, q: nat)
    requires q < p
    ensures FlushAfter(FlushAfter(s, p), q) == FlushAfter(s, q)
  {
    assert FlushAfter(FlushAfter(s, p), q).pos == FlushAfter(s, q).pos;
  }

  /** Flushing for several operands is flushing once, to the least position any of
      them may have. */
  lemma {:induction false} FlushAllOnce(s: Sim, regs: seq<RegRange>, n: nat)
    requires n <= |regs|
    ensures var (s', p) := FlushAll(s, regs, n);
            && (p.None? ==> s' == s)
            && (p.Some? ==> s' == FlushAfter(s, p.value) && exists r :: r in s.pos && s.pos[r] == p.value)
    ensures forall k: nat, r: nat :: k < n && regs[k].Has(r) ==> r !in FlushAll(s, regs, n).0.pos
  {
    if n > 0 {
      FlushAllOnce(s, regs, n - 1);
      var (s1, a) := FlushAll(s, regs, n - 1);
      var (s2, b) := Flush(s1, regs[n - 1]);
      FlushClears(s1, regs[n - 1]);
      hide Flush;
      if a.Some? && b.Some? {
        var r :| r in s1.pos && s1.pos[r] == b.value;
        FlushTwice(s, a.value, b.value);
      }
    }
  }

  lemma PushCovers(s: Sim, q: Queue, reg: RegRange)
    requires Covers(s, q)
    ensures Covers(PushFront(s, reg), [reg] + q)
  {
    forall p: nat, r: nat | p < |q| + 1 && ([reg] + q)[p].Has(r)
      ensures r in PushFront(s, reg).pos && PushFront(s, reg).pos[r] <= p
    {
      if p > 0 { assert ([reg] + q)[p] == q[p - 1]; }
    }
  }

  /** One instruction: behind its barrier none of its registers is in flight, and the
      simulation goes on covering the queue. */
  lemma VisitSound(s: Sim, i: Instr, q: Queue, q1: Queue)
    requires Bounded(s) && Covers(s, q) && Issues(q, Visit(s, i).1, q1)
    ensures forall k: nat, r: nat :: k < |i.regs| && i.regs[k].Has(r) ==> !InFlight(q1, r)
    ensures Bounded(Visit(s, i).0) && Covers(Visit(s, i).0, After(q1, i)) && |After(q1, i)| <= MAX_LEFT + 1
  {
    FlushAllOnce(s, i.regs, |i.regs|);
    var (s1, flush) := FlushAll(s, i.regs, |i.regs|);
    CoversRetired(s, q, q1);
    if flush.Some? {
      FlushCovers(s, q1, flush.value);
      FlushOk(s, flush.value);
    }
    assert Covers(s1, q1) && Bounded(s1);
    forall k: nat, r: nat | k < |i.regs| && i.regs[k].Has(r)
      ensures !InFlight(q1, r)
    {
      assert r !in s1.pos;
      forall p: nat | p < |q1|
        ensures !q1[p].Has(r)
      {
      }
    }
    if i.queued.Some? {
      if s1.maxLen > MAX_LEFT {
        FlushCovers(s1, q1, MAX_LEFT);
        PushCovers(FlushAfter(s1, MAX_LEFT), q1, i.queued.value);
      } else {
        PushCovers(s1, q1, i.queued.value);
      }
    }
  }

  /** At most one of the two reasons for a barrier applies. */
  lemma OneBarrier(s: Sim, i: Instr)
    requires Bounded(s) && i.queued.Some?
    ensures var (s1, flush) := FlushAll(s, i.regs, |i.regs|);
            flush.None? || Push(s1, i.queued.value).1.None?
  {
    FlushAllOnce(s, i.regs, |i.regs|);
  }

  // ---- the simulation knows no less than it can

  /** A queue of `n` fetches that write nothing. */
  function Idle(n: nat): (q: Queue)
    ensures |q| == n && forall p :: 0 <= p < n ==> q[p] == RegRange(0, 0)
  {
    seq(n, _ => RegRange(0, 0))
  }

  /** Nothing is in flight but register `r`, at position `p` and oldest. */
  function Lone(r: nat, p: nat): (q: Queue)
    ensures |q| == p + 1 && q[p] == RegRange(r, 1) && forall k :: 0 <= k < p ==> q[k] == RegRange(0, 0)
  {
    Idle(p) + [RegRange(r, 1)]
  }

  /** Every entry of the abstract queue is one of a queue it covers. */
  lemma LoneCovered(s: Sim, r: nat)
    requires Bounded(s) && r in s.pos
    ensures Covers(s, Lone(r, s.pos[r])) && Lone(r, s.pos[r])[s.pos[r]].Has(r)
  {
    var q := Lone(r, s.pos[r]);
    forall p: nat, x: nat | p < |q| && q[p].Has(x)
      ensures x in s.pos && s.pos[x] <= p
    {
      assert p == s.pos[r] && x == r;
    }
  }

  lemma IdleCovered(s: Sim, n: nat)
    requires n <= s.maxLen
    ensures Covers(s, Idle(n))
  {
  }

  /** The instruction may find queue `q` and leave `q'`. */
  ghost predicate Leads(s: Sim, i: Instr, q: Queue, q': Queue) {
    Covers(s, q) && exists q1 :: Issues(q, Visit(s, i).1, q1) && q' == After(q1, i)
  }

  /** An instruction that goes ahead of queue `q` meets a register of its own, or the
      queue overflows. */
  ghost predicate GoesWrong(i: Instr, q: Queue) {
    (exists k: nat, r: nat :: k < |i.regs| && i.regs[k].Has(r) && InFlight(q, r)) || |After(q, i)| > 63
  }

  /** Where a flush comes from: an operand that may sit at just that position. */
  lemma {:induction false} FlushReason(s: Sim, regs: seq<RegRange>, n: nat)
    requires n <= |regs| && FlushAll(s, regs, n).1.Some?
    ensures exists k: nat, r: nat :: k < n && regs[k].Has(r) && r in s.pos && s.pos[r] == FlushAll(s, regs, n).1.value
  {
    var (s1, a) := FlushAll(s, regs, n - 1);
    var (s2, b) := Flush(s1, regs[n - 1]);
    FlushAllOnce(s, regs, n - 1);
    MinPosLeast(s1.pos, regs[n - 1].base, regs[n - 1].comps);
    if a.Some? && FlushAll(s, regs, n).1 == a {
      FlushReason(s, regs, n - 1);
    } else {
      var r: nat :| regs[n - 1].base <= r < regs[n - 1].base + regs[n - 1].comps && r in s1.pos && s1.pos[r] == b.value;
      assert regs[n - 1].Has(r) && r in s.pos && s.pos[r] == b.value;
    }
  }

  /** A barrier is no stronger than it has to be: one that leaves a fetch more in
      flight, or no barrier at all, lets a queue through with which the instruction
      goes wrong. */
  lemma BarrierNeeded(s: Sim, i: Instr) returns (q: Queue)
    requires Bounded(s) && Visit(s, i).1.Some?
    ensures Covers(s, q) && GoesWrong(i, q)
    ensures forall bar: Option<nat> :: (bar.Some? ==> bar.value > Visit(s, i).1.value) ==> Issues(q, bar, q)
  {
    var (s1, flush) := FlushAll(s, i.regs, |i.regs|);
    if flush.Some? {
      FlushReason(s, i.regs, |i.regs|);
      var k: nat, r: nat :| k < |i.regs| && i.regs[k].Has(r) && r in s.pos && s.pos[r] == flush.value;
      q := Lone(r, s.pos[r]);
      LoneCovered(s, r);
      assert InFlight(q, r);
    } else {
      FlushAllOnce(s, i.regs, |i.regs|);
      q := Idle(MAX_LEFT + 1);
    }
    assert q == q[..|q|];
  }

  /** Nor does the simulation give anything away: behind the instruction a register may
      be just where it says, and the queue as long. */
  lemma VisitTight(s: Sim, i: Instr, r: nat) returns (q: Queue, q': Queue, longest: Queue, longest': Queue)
    requires Bounded(s)
    ensures r in Visit(s, i).0.pos ==>
              Leads(s, i, q, q') && Visit(s, i).0.pos[r] < |q'| && q'[Visit(s, i).0.pos[r]].Has(r)
    ensures Leads(s, i, longest, longest') && |longest'| == Visit(s, i).0.maxLen
  {
    q, q' := [], [];
    if r in Visit(s, i).0.pos { q, q' := StaysWhere(s, i, r); }
    longest, longest' := StaysLong(s, i);
  }

  lemma StaysLong(s: Sim, i: Instr) returns (q: Queue, q': Queue)
    requires Bounded(s)
    ensures Leads(s, i, q, q') && |q'| == Visit(s, i).0.maxLen
  {
    FlushAllOnce(s, i.regs, |i.regs|);
    var bar := Visit(s, i).1;
    q := Idle(s.maxLen);
    IdleCovered(s, s.maxLen);
    hide Covers;
    var q1 := if bar.Some? && bar.value < s.maxLen then Idle(bar.value) else q;
    q' := After(q1, i);
    assert q1 == q[..|q1|];
  }

  lemma StaysWhere(s: Sim, i: Instr, r: nat) returns (q: Queue, q': Queue)
    requires Bounded(s) && r in Visit(s, i).0.pos
    ensures Leads(s, i, q, q') && Visit(s, i).0.pos[r] < |q'| && q'[Visit(s, i).0.pos[r]].Has(r)
  {
    FlushAllOnce(s, i.regs, |i.regs|);
    if i.queued.Some? && i.queued.value.Has(r) {
      q := [];
      IdleCovered(s, 0);
      assert Idle(0) == q;
    } else {
      q := Lone(r, s.pos[r]);
      LoneCovered(s, r);
    }
    hide Covers;
    assert q == q[..|q|];
    q' := After(q, i);
    assert Issues(q, Visit(s, i).1, q);
  }

  /** `c` covers every queue `s` covers. */
  ghost predicate NoLess(c: Sim, s: Sim) {
    forall q: Queue :: Covers(s, q) ==> Covers(c, q)
  }

  lemma NoLessHas(c: Sim, s: Sim)
    requires Bounded(s) && NoLess(c, s)
    ensures s.maxLen <= c.maxLen && forall r: nat :: r in s.pos ==> r in c.pos && c.pos[r] <= s.pos[r]
  {
    IdleCovered(s, s.maxLen);
    assert Covers(c, Idle(s.maxLen));
    forall r: nat | r in s.pos
      ensures r in c.pos && c.pos[r] <= s.pos[r]
    {
      var q := Lone(r, s.pos[r]);
      LoneCovered(s, r);
      assert Covers(c, q) && q[s.pos[r]].Has(r);
    }
  }

  lemma JoinAt(a: Sim, b: Sim, r: nat)
    requires r in Merge(a, b).pos
    ensures (r in a.pos && Merge(a, b).pos[r] == a.pos[r]) || (r in b.pos && Merge(a, b).pos[r] == b.pos[r])
  {
  }

  lemma JoinBelow(a: Sim, b: Sim, c: Sim, q: Queue)
    requires Bounded(a) && Bounded(b) && NoLess(c, a) && NoLess(c, b) && Covers(Merge(a, b), q)
    ensures Covers(c, q)
  {
    NoLessHas(c, a);
    NoLessHas(c, b);
    hide NoLess;
    forall p: nat, r: nat | p < |q| && q[p].Has(r)
      ensures r in c.pos && c.pos[r] <= p
    {
      JoinAt(a, b, r);
    }
  }

  /** The join covers what either path covers, and is the least that does. */
  lemma MergeLeast(a: Sim, b: Sim, c: Sim)
    requires Bounded(a) && Bounded(b)
    ensures NoLess(c, Merge(a, b)) <==> NoLess(c, a) && NoLess(c, b)
  {
    forall q: Queue | Covers(a, q) || Covers(b, q)
      ensures Covers(Merge(a, b), q)
    {
      MergeCovers(a, b, q);
    }
    if NoLess(c, a) && NoLess(c, b) {
      forall q: Queue | Covers(Merge(a, b), q)
        ensures Covers(c, q)
      {
        JoinBelow(a, b, c, q);
      }
    }
  }

  lemma MergeCovers(a: Sim, b: Sim, q: Queue)
    requires Covers(a, q) || Covers(b, q)
    ensures Covers(Merge(a, b), q)
  {
  }

  lemma MergeBounded(a: Sim, b: Sim)
    requires Bounded(a) && Bounded(b)
    ensures Bounded(Merge(a, b))
  {
  }

  // ---------------------------------------------------------------------------
  // The simulation as it is stored: buckets of four positions
  // ---------------------------------------------------------------------------

  /** No position: `u8::MAX`. */
  const INVALID := 255

  /** Where a register is stored. */
  function BucketOf(r: nat): nat {
    r / 4
  }

  function SubOf(r: nat): (i: nat)
    ensures i < 4
  {
    r % 4
  }

  type Bucket = b: seq<nat> | |b| == 4 witness [255, 255, 255, 255]

  function EntryPush(e: nat): nat {
    if e != INVALID then e + 1 else e
  }

  function EntryFlush(e: nat, p: nat): nat {
    if e < p then e else INVALID
  }

  function BucketPush(b: Bucket): Bucket {
    [EntryPush(b[0]), EntryPush(b[1]), EntryPush(b[2]), EntryPush(b[3])]
  }

  function BucketFlush(b: Bucket, p: nat): Bucket {
    [EntryFlush(b[0], p), EntryFlush(b[1], p), EntryFlush(b[2], p), EntryFlush(b[3], p)]
  }

  predicate BucketRetained(b: Bucket, p: nat) {
    b[0] < p || b[1] < p || b[2] < p || b[3] < p
  }

  function Lower(x: nat, y: nat): nat {
    if x <= y then x else y
  }

  function BucketMerge(a: Bucket, b: Bucket): Bucket {
    [Lower(a[0], b[0]), Lower(a[1], b[1]), Lower(a[2], b[2]), Lower(a[3], b[3])]
  }

  const EMPTY_BUCKET: Bucket := [INVALID, INVALID, INVALID, INVALID]

  function BucketAt(buckets: map<nat, Bucket>, k: nat): Bucket {
    if k in buckets then buckets[k] else EMPTY_BUCKET
  }

  function BucketGet(buckets: map<nat, Bucket>, r: nat): nat {
    if BucketOf(r) in buckets then buckets[BucketOf(r)][SubOf(r)] else INVALID
  }

  /** The buckets store exactly the positions. */
  ghost predicate Stores(buckets: map<nat, Bucket>, pos: map<nat, nat>) {
    forall r: nat :: (r in pos <==> BucketGet(buckets, r) != INVALID) && (r in pos ==> pos[r] == BucketGet(buckets, r))
  }

  ghost predicate InBucket(reg: RegRange) {
    SubOf(reg.base) + reg.comps <= 4
  }

  class TexQueueSimulation {
    var queuePos: map<nat, Bucket>
    var maxQueueLen: nat
    ghost var sim: Sim

    ghost predicate Valid()
      reads this
    {
      sim.maxLen == maxQueueLen && Bounded(sim) && Stores(queuePos, sim.pos)
    }

    constructor ()
      ensures Valid() && sim == EMPTY
    {
      queuePos, maxQueueLen, sim := map[], 0, EMPTY;
    }

    method MinQueuePosition(reg: RegRange) returns (p: Option<nat>)
      requires Valid() && InBucket(reg)
      ensures p == MinPos(sim.pos, reg.base, reg.comps)
    {
      if BucketOf(reg.base) !in queuePos {
        NoneInBucket(reg);
        return None;
      }
      p := None;
      for c := 0 to reg.comps
        invariant p == MinPos(sim.pos, reg.base, c)
      {
        StoredAt(reg, c);
        hide Stores, Bounded, BucketGet, InBucket, BucketOf, SubOf;
        var e := queuePos[BucketOf(reg.base)][SubOf(reg.base) + c];
        if e != INVALID { p := MinOpt(p, Some(e)); }
      }
    }

    lemma StoredAt(reg: RegRange, c: nat)
      requires Valid() && InBucket(reg) && BucketOf(reg.base) in queuePos && c < reg.comps
      ensures SubOf(reg.base) + c < 4
      ensures PosOf(sim.pos, reg.base + c) ==
              var e := queuePos[BucketOf(reg.base)][SubOf(reg.base) + c]; if e != INVALID then Some(e) else None
    {
      BucketIndex(reg, c);
      assert queuePos[BucketOf(reg.base)][SubOf(reg.base) + c] == BucketGet(queuePos, reg.base + c);
    }

    lemma NoneInBucket(reg: RegRange)
      requires Valid() && InBucket(reg) && BucketOf(reg.base) !in queuePos
      ensures MinPos(sim.pos, reg.base, reg.comps).None?
    {
      forall r: nat | reg.base <= r < reg.base + reg.comps
        ensures r !in sim.pos
      {
        BucketIndex(reg, r - reg.base);
        assert BucketGet(queuePos, r) == INVALID;
      }
      MinPosLeast(sim.pos, reg.base, reg.comps);
    }

    predicate IsQueueFull()
      reads this
    {
      maxQueueLen > MAX_LEFT
    }

    /** `texdepbar p`. */
    method FlushQueue(p: nat)
      requires Valid() && p <= MAX_LEFT
      modifies this
      ensures Valid() && sim == FlushAfter(old(sim), p)
    {
      maxQueueLen := if maxQueueLen <= p then maxQueueLen else p;
      queuePos := map k | k in queuePos && BucketRetained(queuePos[k], p) :: BucketFlush(queuePos[k], p);
      sim := FlushAfter(sim, p);
      FlushOk(old(sim), p);
      FlushStores(old(queuePos), queuePos, p);
      forall r: nat
        ensures (r in sim.pos <==> BucketGet(queuePos, r) != INVALID) && (r in sim.pos ==> sim.pos[r] == BucketGet(queuePos, r))
      {
        assert BucketGet(queuePos, r) == EntryFlush(BucketGet(old(queuePos), r), p);
        assert r in old(sim).pos <==> BucketGet(old(queuePos), r) != INVALID;
      }
    }

    /** A texture operation that writes `reg` joins the queue. */
    method JoinQueue(reg: RegRange)
      requires Valid() && InBucket(reg) && maxQueueLen <= MAX_LEFT
      modifies this
      ensures Valid() && sim == PushFront(old(sim), reg)
    {
      ghost var s, before := sim, queuePos;
      assert Stores(before, s.pos) && Bounded(s);
      hide Stores, Bounded, BucketOf;
      maxQueueLen := maxQueueLen + 1;
      queuePos := map k | k in queuePos :: BucketPush(queuePos[k]);
      ghost var pushed := queuePos;
      var k := BucketOf(reg.base);
      var bucket := SetAsFirst(BucketAt(queuePos, k), SubOf(reg.base), reg.comps);
      queuePos := queuePos[k := bucket];
      sim := PushFront(s, reg);
      PushStores(before, pushed, queuePos, s, reg, bucket);
    }

    /** If the queue may be full a barrier makes room first. */
    method PushTex(reg: RegRange) returns (bar: Option<nat>)
      requires Valid() && InBucket(reg) && MinPos(sim.pos, reg.base, reg.comps).None?
      modifies this
      ensures Valid() && (sim, bar) == Push(old(sim), reg)
    {
      hide Stores, Bounded, InBucket;
      bar := None;
      if IsQueueFull() {
        bar := Some(MAX_LEFT);
        FlushQueue(MAX_LEFT);
      }
      JoinQueue(reg);
    }

    /** The barrier level an operand needs, and what waiting for it does. */
    method FlushReg(reg: RegRange) returns (p: Option<nat>)
      requires Valid() && InBucket(reg)
      modifies this
      ensures Valid() && (sim, p) == Flush(old(sim), reg)
    {
      FlushClears(sim, reg);
      hide Stores;
      p := MinQueuePosition(reg);
      if p.Some? {
        FlushQueue(p.value);
      }
    }

    method MergeWith(other: TexQueueSimulation)
      requires Valid() && other.Valid() && other != this
      modifies this
      ensures Valid() && sim == Merge(old(sim), other.sim)
    {
      maxQueueLen := if maxQueueLen <= other.maxQueueLen then other.maxQueueLen else maxQueueLen;
      var mine, theirs := queuePos, other.queuePos;
      queuePos := map k | k in mine.Keys + theirs.Keys ::
        BucketMerge(BucketAt(mine, k), BucketAt(theirs, k));
      sim := Merge(sim, other.sim);
      MergeBounded(old(sim), other.sim);
      MergeStores(mine, theirs, queuePos, old(sim).pos, other.sim.pos);
    }

    /** `visit_instr`: the barrier an instruction needs, if any. */
    method VisitInstr(i: Instr) returns (bar: Option<nat>)
      requires Valid() && (forall k :: 0 <= k < |i.regs| ==> InBucket(i.regs[k]))
      requires i.queued.Some? ==> i.queued.value in i.regs
      modifies this
      ensures Valid() && (sim, bar) == Visit(old(sim), i)
    {
      var flush: Option<nat> := None;
      if queuePos.Keys != {} {
        hide Stores, Bounded, Flush, InBucket;
        for k := 0 to |i.regs|
          invariant Valid() && (sim, flush) == FlushAll(old(sim), i.regs, k)
        {
          var p := FlushReg(i.regs[k]);
          flush := MinOpt(flush, p);
        }
      } else {
        NothingQueued(i);
      }
      hide Stores, Bounded, Flush, FlushAll, InBucket;
      var push: Option<nat> := None;
      if i.queued.Some? {
        QueuedIsFlushed(old(sim), i);
        push := PushTex(i.queued.value);
      }
      bar := if flush.Some? then flush else push;
    }

    lemma NothingQueued(i: Instr)
      requires Valid() && queuePos.Keys == {}
      ensures FlushAll(sim, i.regs, |i.regs|) == (sim, None)
    {
      forall r: nat
        ensures r !in sim.pos
      {
        assert BucketGet(queuePos, r) == INVALID;
      }
      FlushAllOnce(sim, i.regs, |i.regs|);
    }
  }

  lemma BucketIndex(reg: RegRange, c: nat)
    requires InBucket(reg) && c < reg.comps
    ensures BucketOf(reg.base + c) == BucketOf(reg.base) && SubOf(reg.base + c) == SubOf(reg.base) + c
  {
  }

  lemma QueuedIsFlushed(s: Sim, i: Instr)
    requires i.queued.Some? && i.queued.value in i.regs
    ensures MinPos(FlushAll(s, i.regs, |i.regs|).0.pos, i.queued.value.base, i.queued.value.comps).None?
  {
    FlushAllOnce(s, i.regs, |i.regs|);
    var k :| 0 <= k < |i.regs| && i.regs[k] == i.queued.value;
    var pos := FlushAll(s, i.regs, |i.regs|).0.pos;
    assert forall r: nat :: i.regs[k].Has(r) ==> r !in pos;
    forall r: nat | i.regs[k].base <= r < i.regs[k].base + i.regs[k].comps
      ensures r !in pos
    {
      assert i.regs[k].Has(r);
    }
    MinPosLeast(pos, i.queued.value.base, i.queued.value.comps);
  }

  lemma FlushStores(a: map<nat, Bucket>, b: map<nat, Bucket>, p: nat)
    requires p <= MAX_LEFT && b == map k | k in a && BucketRetained(a[k], p) :: BucketFlush(a[k], p)
    ensures forall r: nat :: BucketGet(b, r) == EntryFlush(BucketGet(a, r), p)
  {
    forall r: nat
      ensures BucketGet(b, r) == EntryFlush(BucketGet(a, r), p)
    {
      var k, i := BucketOf(r), SubOf(r);
      assert i == 0 || i == 1 || i == 2 || i == 3;
    }
  }

  /** Position 0 for every register of the range. */
  method SetAsFirst(b: Bucket, sub: nat, comps: nat) returns (r: Bucket)
    requires sub + comps <= 4
    ensures forall i :: 0 <= i < 4 ==> r[i] == if sub <= i < sub + comps then 0 else b[i]
  {
    r := b;
    for i := sub to sub + comps
      invariant forall j :: 0 <= j < 4 ==> r[j] == if sub <= j < i then 0 else b[j]
    {
      r := r[i := 0];
    }
  }

  lemma PushStores(a: map<nat, Bucket>, b: map<nat, Bucket>, c: map<nat, Bucket>, s: Sim, reg: RegRange, bucket: Bucket)
    requires Stores(a, s.pos) && Bounded(s) && s.maxLen <= MAX_LEFT && InBucket(reg)
    requires b == map k | k in a :: BucketPush(a[k])
    requires c == b[BucketOf(reg.base) := bucket]
    requires forall i :: 0 <= i < 4 ==>
               bucket[i] == if SubOf(reg.base) <= i < SubOf(reg.base) + reg.comps then 0
                            else if BucketOf(reg.base) in b then b[BucketOf(reg.base)][i] else INVALID
    ensures Stores(c, PushFront(s, reg).pos) && Bounded(PushFront(s, reg))
  {
    var t := PushFront(s, reg);
    forall r: nat
      ensures (r in t.pos <==> BucketGet(c, r) != INVALID) && (r in t.pos ==> t.pos[r] == BucketGet(c, r))
    {
      var k, i := BucketOf(r), SubOf(r);
      assert i == 0 || i == 1 || i == 2 || i == 3;
      assert BucketGet(b, r) == EntryPush(BucketGet(a, r));
      assert r in s.pos <==> BucketGet(a, r) != INVALID;
      RangeIndex(reg, r);
    }
  }

  lemma RangeIndex(reg: RegRange, r: nat)
    requires InBucket(reg)
    ensures reg.Has(r) <==> BucketOf(r) == BucketOf(reg.base) && SubOf(reg.base) <= SubOf(r) < SubOf(reg.base) + reg.comps
  {
  }

  lemma MergedEntry(a: map<nat, Bucket>, b: map<nat, Bucket>, c: map<nat, Bucket>, r: nat)
    requires c == map k | k in a.Keys + b.Keys :: BucketMerge(BucketAt(a, k), BucketAt(b, k))
    ensures BucketGet(c, r) == if BucketOf(r) in a || BucketOf(r) in b then Lower(BucketGet(a, r), BucketGet(b, r)) else INVALID
  {
    var i := SubOf(r);
    assert i == 0 || i == 1 || i == 2 || i == 3;
  }

  lemma MergedPos(a: map<nat, Bucket>, b: map<nat, Bucket>, c: map<nat, Bucket>, p: map<nat, nat>, q: map<nat, nat>, r: nat)
    requires Stores(a, p) && Stores(b, q)
    requires forall r :: r in p ==> p[r] < INVALID
    requires forall r :: r in q ==> q[r] < INVALID
    requires c == map k | k in a.Keys + b.Keys :: BucketMerge(BucketAt(a, k), BucketAt(b, k))
    ensures r in p || r in q <==> BucketGet(c, r) != INVALID
    ensures r in p || r in q ==> MinOpt(PosOf(p, r), PosOf(q, r)) == Some(BucketGet(c, r))
  {
    MergedEntry(a, b, c, r);
    assert (r in p <==> BucketGet(a, r) != INVALID) && (r in p ==> p[r] == BucketGet(a, r));
    assert (r in q <==> BucketGet(b, r) != INVALID) && (r in q ==> q[r] == BucketGet(b, r));
  }

  lemma MergeStores(a: map<nat, Bucket>, b: map<nat, Bucket>, c: map<nat, Bucket>, p: map<nat, nat>, q: map<nat, nat>)
    requires Stores(a, p) && Stores(b, q)
    requires forall r :: r in p ==> p[r] < INVALID
    requires forall r :: r in q ==> q[r] < INVALID
    requires c == map k | k in a.Keys + b.Keys :: BucketMerge(BucketAt(a, k), BucketAt(b, k))
    ensures Stores(c, MergePos(p, q))
  {
    var m := MergePos(p, q);
    hide Stores, BucketGet, BucketMerge, BucketAt, BucketOf, SubOf;
    forall r: nat
      ensures (r in m <==> BucketGet(c, r) != INVALID) && (r in m ==> m[r] == BucketGet(c, r))
    {
      MergedPos(a, b, c, p, q, r);
    }
    StoresIntro(c, m);
  }

  lemma StoresIntro(c: map<nat, Bucket>, m: map<nat, nat>)
    requires forall r: nat :: (r in m <==> BucketGet(c, r) != INVALID) && (r in m ==> m[r] == BucketGet(c, r))
    ensures Stores(c, m)
  {
  }

  // ---------------------------------------------------------------------------
  // A whole function
  // ---------------------------------------------------------------------------

  datatype Program = Program(blocks: seq<seq<Instr>>, succs: seq<seq<nat>>)

  ghost predicate WellFormed(prog: Program) {
    && |prog.succs| == |prog.blocks| > 0
    && forall b, k :: 0 <= b < |prog.succs| && 0 <= k < |prog.succs[b]| ==> prog.succs[b][k] < |prog.blocks|
  }

  /** What the bucket layout asks of the instructions of a block. */
  ghost predicate Fitting(block: seq<Instr>) {
    forall n :: 0 <= n < |block| ==>
      && (forall k :: 0 <= k < |block[n].regs| ==> InBucket(block[n].regs[k]))
      && (block[n].queued.Some? ==> block[n].queued.value in block[n].regs)
  }

  function SimAt(s: Sim, block: seq<Instr>, n: nat): Sim
    requires n <= |block|
  {
    if n == 0 then s else Visit(SimAt(s, block, n - 1), block[n - 1]).0
  }

  function BarAt(s: Sim, block: seq<Instr>, n: nat): Option<nat>
    requires n < |block|
  {
    Visit(SimAt(s, block, n), block[n]).1
  }

  method VisitNext(sim: TexQueueSimulation, block: seq<Instr>, n: nat, ghost s: Sim) returns (bar: Option<nat>)
    requires n < |block| && sim.Valid() && Fitting(block) && sim.sim == SimAt(s, block, n)
    modifies sim
    ensures sim.Valid() && sim.sim == SimAt(s, block, n + 1) && bar == BarAt(s, block, n)
  {
    hide Stores, Bounded, Visit, InBucket;
    bar := sim.VisitInstr(block[n]);
  }

  /** The transfer function of the data flow. */
  method Transfer(sim: TexQueueSimulation, block: seq<Instr>)
    requires sim.Valid() && Fitting(block)
    modifies sim
    ensures sim.Valid() && sim.sim == SimAt(old(sim.sim), block, |block|)
  {
    ghost var s := sim.sim;
    assert s == SimAt(s, block, 0);
    hide Stores, Bounded, Visit, Fitting, SimAt;
    for n := 0 to |block|
      invariant sim.Valid() && sim.sim == SimAt(s, block, n)
    {
      var _ := VisitNext(sim, block, n, s);
    }
  }

  /** An instruction behind its `texdepbar`, if it has one. */
  datatype Guarded = Guarded(bar: Option<nat>, instr: Instr)

  function Behind(s: Sim, block: seq<Instr>, n: nat): (code: seq<Guarded>)
    requires n <= |block|
    ensures |code| == n
  {
    if n == 0 then [] else Behind(s, block, n - 1) + [Guarded(BarAt(s, block, n - 1), block[n - 1])]
  }

  lemma {:induction false} BehindAt(s: Sim, block: seq<Instr>, n: nat, k: nat)
    requires k < n <= |block|
    ensures Behind(s, block, n)[k] == Guarded(BarAt(s, block, k), block[k])
  {
    if k < n - 1 { BehindAt(s, block, n - 1, k); }
  }

  /** The instructions of a block, each behind the barrier it needs. */
  method InsertBarriers(sim: TexQueueSimulation, block: seq<Instr>) returns (code: seq<Guarded>)
    requires sim.Valid() && Fitting(block)
    modifies sim
    ensures code == Behind(old(sim.sim), block, |block|)
  {
    code := [];
    ghost var s := sim.sim;
    assert s == SimAt(s, block, 0);
    hide Stores, Bounded, Visit, Fitting, SimAt, BarAt;
    for n := 0 to |block|
      invariant sim.Valid() && sim.sim == SimAt(s, block, n) && code == Behind(s, block, n)
    {
      var bar := VisitNext(sim, block, n, s);
      code := code + [Guarded(bar, block[n])];
    }
  }

  /** What the data flow settles at: the state into a block absorbs the state out of
      every predecessor. */
  ghost predicate Settled(prog: Program, ins: seq<Sim>)
    requires WellFormed(prog)
  {
    && |ins| == |prog.blocks| && (forall b :: 0 <= b < |ins| ==> Bounded(ins[b]))
    && forall b, k :: 0 <= b < |prog.succs| && 0 <= k < |prog.succs[b]| ==>
         var s := prog.succs[b][k];
         Merge(ins[s], SimAt(ins[b], prog.blocks[b], |prog.blocks[b]|)) == ins[s]
  }

  /** A point of a run: before instruction `ip` of `block`, with `queue` in flight. */
  datatype Config = Config(block: nat, ip: nat, queue: Queue)

  ghost predicate At(prog: Program, c: Config) {
    c.block < |prog.blocks| && c.ip <= |prog.blocks[c.block]|
  }

  /** The next instruction goes ahead behind its barrier, fetches having retired as
      they may; or control passes to a successor. */
  ghost predicate Steps(prog: Program, ins: seq<Sim>, c: Config, c': Config)
    requires WellFormed(prog) && |ins| == |prog.blocks| && At(prog, c)
  {
    var block := prog.blocks[c.block];
    if c.ip < |block| then
      exists q1 :: Issues(c.queue, BarAt(ins[c.block], block, c.ip), q1) && c' == Config(c.block, c.ip + 1, After(q1, block[c.ip]))
    else
      c'.block in prog.succs[c.block] && c'.ip == 0 && c'.queue == c.queue
  }

  ghost predicate IsRun(prog: Program, ins: seq<Sim>, run: seq<Config>)
    requires WellFormed(prog) && |ins| == |prog.blocks|
  {
    && |run| > 0 && run[0] == Config(0, 0, []) && (forall i :: 0 <= i < |run| ==> At(prog, run[i]))
    && forall i :: 0 <= i < |run| - 1 ==> Steps(prog, ins, run[i], run[i + 1])
  }

  ghost predicate Covered(prog: Program, ins: seq<Sim>, c: Config)
    requires |ins| == |prog.blocks|
  {
    && At(prog, c)
    && Covers(SimAt(ins[c.block], prog.blocks[c.block], c.ip), c.queue)
    && Bounded(SimAt(ins[c.block], prog.blocks[c.block], c.ip))
  }

  lemma CoveredStep(prog: Program, ins: seq<Sim>, c: Config, c': Config)
    requires WellFormed(prog) && Settled(prog, ins) && Covered(prog, ins, c)
    requires At(prog, c') && Steps(prog, ins, c, c')
    ensures Covered(prog, ins, c')
  {
    var block := prog.blocks[c.block];
    hide Covers, Bounded, Visit, Merge, Issues;
    if c.ip < |block| {
      var q1 :| Issues(c.queue, BarAt(ins[c.block], block, c.ip), q1) && c' == Config(c.block, c.ip + 1, After(q1, block[c.ip]));
      VisitSound(SimAt(ins[c.block], block, c.ip), block[c.ip], c.queue, q1);
    } else {
      var k :| 0 <= k < |prog.succs[c.block]| && prog.succs[c.block][k] == c'.block;
      MergeCovers(ins[c'.block], SimAt(ins[c.block], block, |block|), c.queue);
    }
  }

  lemma {:induction false} RunCovered(prog: Program, ins: seq<Sim>, run: seq<Config>)
    requires WellFormed(prog) && Settled(prog, ins) && IsRun(prog, ins, run)
    ensures Covered(prog, ins, run[|run| - 1])
  {
    if |run| == 1 {
    } else {
      var before := run[..|run| - 1];
      assert forall i :: 0 <= i < |before| - 1 ==> Steps(prog, ins, before[i], before[i + 1]) by {
        forall i | 0 <= i < |before| - 1
          ensures Steps(prog, ins, before[i], before[i + 1])
        {
          assert Steps(prog, ins, run[i], run[i + 1]);
        }
      }
      RunCovered(prog, ins, before);
      assert Steps(prog, ins, run[|run| - 2], run[|run| - 1]);
      hide Covered, Settled;
      CoveredStep(prog, ins, run[|run| - 2], run[|run| - 1]);
    }
  }

  /** On every path through the function the queue stays within what the hardware
      holds, and behind its barrier an instruction finds none of its registers in
      flight, however fetches retire. */
  lemma NoRegisterInFlight(prog: Program, ins: seq<Sim>, run: seq<Config>, q1: Queue)
    requires WellFormed(prog) && Settled(prog, ins) && IsRun(prog, ins, run)
    ensures var c := run[|run| - 1];
            && |c.queue| <= 63
            && (c.ip < |prog.blocks[c.block]| && Issues(c.queue, BarAt(ins[c.block], prog.blocks[c.block], c.ip), q1) ==>
                  var i := prog.blocks[c.block][c.ip];
                  && (forall k: nat, r: nat :: k < |i.regs| && i.regs[k].Has(r) ==> !InFlight(q1, r))
                  && |After(q1, i)| <= 63)
  {
    var c := run[|run| - 1];
    RunCovered(prog, ins, run);
    var block := prog.blocks[c.block];
    hide Visit, IsRun, Settled;
    if c.ip < |block| && Issues(c.queue, BarAt(ins[c.block], block, c.ip), q1) {
      VisitSound(SimAt(ins[c.block], block, c.ip), block[c.ip], c.queue, q1);
    }
  }
}
