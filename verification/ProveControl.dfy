/** `verify.rs`: the control-flow half of the shader verifier.  A worklist gives
    every reachable instruction one reconvergence stack and refuses programs for
    which that is impossible or unsafe. */
module ProveControl {
  import opened Wrappers
  import opened Powers

  datatype Error = ControlStack | Fallthrough | BranchTarget

  /** What an instruction does to control flow.  Kinds are 1 (sync), 2 (break) and
      3 (continue). */
  datatype Flow = Next | Exit | Branch(target: nat) | Push(kind: nat, target: nat) | Pop(kind: nat)

  // ---------------------------------------------------------------------------
  // Words, predicates and branch targets
  // ---------------------------------------------------------------------------

  function Field(w: nat, start: nat, len: nat): nat {
    w / Pow2(start) % Pow2(len)
  }

  /** Three instructions follow each scheduling word. */
  function Address(index: nat): nat {
    index / 3 * 32 + 8 + index % 3 * 8
  }

  function U64At(code: seq<nat>, offset: nat): nat
    requires offset + 8 <= |code|
  {
    LittleEndian(code[offset..offset + 8])
  }

  function LittleEndian(bytes: seq<nat>): nat {
    if bytes == [] then 0 else bytes[0] + 256 * LittleEndian(bytes[1..])
  }

  function InstructionWord(code: seq<nat>, index: nat): nat
    requires Address(index) + 8 <= |code|
  {
    U64At(code, Address(index))
  }

  lemma EightBits(k: nat)
    ensures Pow2(8 * (k + 1)) == 256 * Pow2(8 * k)
  {
    assert Pow2(8) == 256 by {
      assert Pow2(3) == 8 && Pow2(5) == 32;
      Pow2Add(3, 5);
    }
    Pow2Add(8, 8 * k);
    assert 8 + 8 * k == 8 * (k + 1);
  }

  /** Byte `k` counts 256^k: the word has the bytes for its digits, least first. */
  lemma {:induction false} ByteOf(bytes: seq<nat>, k: nat)
    requires k < |bytes| && forall i :: 0 <= i < |bytes| ==> bytes[i] < 256
    ensures LittleEndian(bytes) / Pow2(8 * k) % 256 == bytes[k]
  {
    var rest := LittleEndian(bytes[1..]);
    assert (bytes[0] + 256 * rest) / 256 == rest && (bytes[0] + 256 * rest) % 256 == bytes[0];
    if k == 0 {
      assert Pow2(8 * k) == 1;
    } else {
      ByteOf(bytes[1..], k - 1);
      EightBits(k - 1);
      DivDiv(LittleEndian(bytes), 256, Pow2(8 * (k - 1)));
    }
  }

  /** There is nothing above the bytes. */
  lemma {:induction false} WordBound(bytes: seq<nat>)
    requires forall i :: 0 <= i < |bytes| ==> bytes[i] < 256
    ensures LittleEndian(bytes) < Pow2(8 * |bytes|)
  {
    if bytes != [] {
      WordBound(bytes[1..]);
      EightBits(|bytes| - 1);
    }
  }

  /** The instruction a 24-bit signed offset leads to, from the one at `ip`. */
  function BranchIndex(raw: nat, ip: nat, size: nat): Result<nat, Error>
    requires raw < 0x100_0000
  {
    var rel := if raw < 0x80_0000 then raw else raw - 0x100_0000;
    var target := ip + 8 + rel;
    if target < 8 || target >= size || target % 8 != 0 || target % 32 == 0 then
      Err(BranchTarget)
    else
      Ok(target / 32 * 3 + target % 32 / 8 - 1)
  }

  lemma AddressParts(bundle: nat, lane: nat)
    requires lane < 3
    ensures Address(bundle * 3 + lane) == bundle * 32 + 8 + lane * 8
  {
    Divide(bundle, lane, 3);
    assert (bundle * 3 + lane) / 3 == bundle && (bundle * 3 + lane) % 3 == lane;
  }

  lemma AddressFields(k: nat)
    ensures Address(k) % 8 == 0 && Address(k) % 32 != 0
  {
    var bundle, lane := k / 3, k % 3;
    assert Address(k) == bundle * 32 + (8 + lane * 8);
    Divide(bundle, 8 + lane * 8, 32);
    assert Address(k) == (bundle * 4 + 1 + lane) * 8 + 0;
    Divide(bundle * 4 + 1 + lane, 0, 8);
  }

  /** An aligned address that is no scheduling word's is the address of a slot. */
  lemma SlotOf(target: nat)
    requires target % 8 == 0 && target % 32 != 0
    ensures target / 32 * 3 + target % 32 / 8 >= 1
    ensures Address(target / 32 * 3 + target % 32 / 8 - 1) == target
  {
    var bundle, rest := target / 32, target % 32;
    assert target == bundle * 32 + rest;
    ModMod(target, 4, 8, 32);
    assert rest in {8, 16, 24};
    AddressParts(bundle, rest / 8 - 1);
  }

  lemma AddressTarget(target: nat)
    ensures (target % 8 == 0 && target % 32 != 0) <==>
            exists k: nat :: Address(k) == target
    ensures target % 8 == 0 && target % 32 != 0 ==>
              target / 32 * 3 + target % 32 / 8 >= 1 && Address(target / 32 * 3 + target % 32 / 8 - 1) == target
  {
    hide Address;
    if target % 8 == 0 && target % 32 != 0 { SlotOf(target); }
    forall k: nat | Address(k) == target
      ensures target % 8 == 0 && target % 32 != 0
    {
      AddressFields(k);
    }
  }

  /** A branch is accepted exactly when it leads to the address of an instruction
      of the program, and then to that instruction: never to a scheduling word. */
  lemma BranchLands(raw: nat, ip: nat, bundles: nat)
    requires raw < 0x100_0000
    ensures var rel := if raw < 0x80_0000 then raw as int else raw - 0x100_0000;
            var r := BranchIndex(raw, ip, bundles * 32);
            && (r.Ok? ==> r.value < bundles * 3 && Address(r.value) == ip + 8 + rel)
            && (r.Err? ==> forall k: nat :: k < bundles * 3 ==> Address(k) != ip + 8 + rel)
  {
    var rel := if raw < 0x80_0000 then raw as int else raw - 0x100_0000;
    var target := ip + 8 + rel;
    if target >= 0 { AddressTarget(target); }
    forall k: nat | k < bundles * 3 && Address(k) == target
      ensures BranchIndex(raw, ip, bundles * 32).Ok?
    {
      assert k / 3 < bundles;
    }
  }

  // ---------------------------------------------------------------------------
  // The predicated machine
  // ---------------------------------------------------------------------------

  datatype Program = Program(code: seq<nat>, flows: seq<Flow>)

  /** What `validate` has established when it calls `prove_control`: code of whole
      bundles, one flow per instruction, decoded targets in range. */
  ghost predicate Decoded(p: Program) {
    && 0 < |p.flows| <= 6144 && |p.code| == |p.flows| / 3 * 32 && |p.flows| % 3 == 0
    && forall i :: 0 <= i < |p.flows| ==>
         match p.flows[i]
         case Branch(t) => t < |p.flows|
         case Push(k, t) => 1 <= k <= 3 && t < |p.flows|
         case Pop(k) => 1 <= k <= 3
         case _ => true
  }

  lemma WordInRange(p: Program, ip: nat)
    requires Decoded(p) && ip < |p.flows|
    ensures Address(ip) + 8 <= |p.code|
  {
    assert ip / 3 < |p.flows| / 3;
  }

  datatype Entry = Entry(kind: nat, target: nat)

  datatype Config = At(ip: nat, stack: seq<Entry>)

  /** The guard field: three bits name a predicate, 7 the one that is always true,
      and the fourth bit negates. */
  function Guard(p: Program, ip: nat): nat
    requires Decoded(p) && ip < |p.flows|
  {
    WordInRange(p, ip);
    Field(InstructionWord(p.code, ip), 16, 4)
  }

  /** It is the low half of the third byte of the instruction. */
  lemma GuardByte(p: Program, ip: nat)
    requires Decoded(p) && ip < |p.flows| && forall i :: 0 <= i < |p.code| ==> p.code[i] < 256
    ensures Address(ip) + 8 <= |p.code| && Guard(p, ip) == p.code[Address(ip) + 2] % 16
  {
    hide Address, LittleEndian, Pow2;
    WordInRange(p, ip);
    var bytes := p.code[Address(ip)..Address(ip) + 8];
    ByteOf(bytes, 2);
    LowHalf(LittleEndian(bytes) / Pow2(16));
  }

  lemma LowHalf(x: nat)
    ensures x % Pow2(4) == x % 256 % 16
  {
    assert Pow2(4) == 16;
  }

  /** Whether the instruction executes when its predicate register holds `b`. */
  predicate Executes(guard: nat, b: bool) {
    (guard % 8 == 7 || b) != (guard >= 8)
  }

  /** A pop of `kind` may discard an entry of kind `ty` on its way. */
  predicate Crossable(kind: nat, ty: nat) {
    !(kind == 1 || (kind == 3 && ty != 1) || (kind == 2 && ty == 2))
  }

  /** A pop of `kind` ends at entry `j`: the topmost of its kind, with nothing
      above that it may not cross. */
  ghost predicate PopsAt(stack: seq<Entry>, kind: nat, j: nat) {
    && j < |stack| && stack[j].kind == kind
    && forall m :: j < m < |stack| ==> stack[m].kind != kind && Crossable(kind, stack[m].kind)
  }

  const LIMIT := 16

  ghost predicate Executed(p: Program, c: Config, d: Config)
    requires c.ip < |p.flows|
  {
    match p.flows[c.ip]
    case Next => d == At(c.ip + 1, c.stack)
    case Exit => false
    case Branch(t) => d == At(t, c.stack)
    case Push(k, t) => |c.stack| < LIMIT && d == At(c.ip + 1, c.stack + [Entry(k, t)])
    case Pop(k) => exists j: nat :: PopsAt(c.stack, k, j) && d == At(c.stack[j].target, c.stack[..j])
  }

  ghost predicate Step(p: Program, c: Config, d: Config)
    requires Decoded(p)
  {
    && c.ip < |p.flows|
    && exists b :: if Executes(Guard(p, c.ip), b) then Executed(p, c, d) else d == At(c.ip + 1, c.stack)
  }

  ghost predicate IsRun(p: Program, run: seq<Config>)
    requires Decoded(p)
  {
    && |run| > 0 && run[0] == At(0, [])
    && forall i :: 0 <= i < |run| - 1 ==> Step(p, run[i], run[i + 1])
  }

  ghost predicate Reachable(p: Program, c: Config)
    requires Decoded(p)
  {
    exists run :: IsRun(p, run) && run[|run| - 1] == c
  }

  lemma ReachableStart(p: Program)
    requires Decoded(p)
    ensures Reachable(p, At(0, []))
  {
    assert IsRun(p, [At(0, [])]);
  }

  lemma ReachableStep(p: Program, c: Config, d: Config)
    requires Decoded(p) && Reachable(p, c) && Step(p, c, d)
    ensures Reachable(p, d)
  {
    var run :| IsRun(p, run) && run[|run| - 1] == c;
    var longer := run + [d];
    assert IsRun(p, longer) && longer[|longer| - 1] == d;
  }

  /** Executing the instruction at `c` overflows the stack, or pops with no entry
      to end at. */
  ghost predicate Faults(p: Program, c: Config)
    requires Decoded(p) && c.ip < |p.flows|
  {
    && (exists b :: Executes(Guard(p, c.ip), b))
    && match p.flows[c.ip]
       case Push(_, _) => |c.stack| >= LIMIT
       case Pop(k) => forall j: nat :: !PopsAt(c.stack, k, j)
       case _ => false
  }

  /** No run falls off the end, no push overflows and no pop goes wrong. */
  ghost predicate Safe(p: Program)
    requires Decoded(p)
  {
    forall c :: Reachable(p, c) ==> c.ip < |p.flows| && !Faults(p, c)
  }

  /** Every instruction is only ever reached with one stack. */
  ghost predicate Unambiguous(p: Program)
    requires Decoded(p)
  {
    forall c, d :: Reachable(p, c) && Reachable(p, d) && c.ip == d.ip ==> c.stack == d.stack
  }

  /** `depth` is the greatest stack depth of any run. */
  ghost predicate GreatestDepth(p: Program, depth: nat)
    requires Decoded(p)
  {
    && (forall c :: Reachable(p, c) ==> |c.stack| <= depth)
    && exists c :: Reachable(p, c) && |c.stack| == depth
  }

  // ---------------------------------------------------------------------------
  // The checker's stacks
  // ---------------------------------------------------------------------------

  /** Sixteen packed entries `target << 2 | kind`, unused ones zero. */
  datatype Stack = Stack(entries: seq<nat>, len: nat)

  const EMPTY := Stack(seq(16, _ => 0), 0)

  ghost predicate Canonical(s: Stack) {
    |s.entries| == 16 && s.len <= 16 && forall i :: s.len <= i < 16 ==> s.entries[i] == 0
  }

  function Unpack(e: nat): Entry {
    Entry(e % 4, e / 4)
  }

  function View(s: Stack): (v: seq<Entry>)
    requires s.len <= |s.entries|
  {
    seq(s.len, i requires 0 <= i < s.len => Unpack(s.entries[i]))
  }

  /** Because popped entries are cleared, comparing the arrays compares stacks. */
  lemma ViewInjective(s: Stack, t: Stack)
    requires Canonical(s) && Canonical(t) && View(s) == View(t)
    ensures s == t
  {
    assert s.len == |View(s)| == |View(t)| == t.len;
    forall i | 0 <= i < 16
      ensures s.entries[i] == t.entries[i]
    {
      if i < s.len {
        assert View(s)[i] == View(t)[i];
        assert s.entries[i] == 4 * (s.entries[i] / 4) + s.entries[i] % 4;
      }
    }
  }

  lemma PackView(k: nat, t: nat)
    requires k < 4
    ensures Unpack(t * 4 + k) == Entry(k, t)
  {
  }

  method PushEntry(s: Stack, kind: nat, target: nat) returns (next: Stack)
    requires Canonical(s) && s.len < 16 && kind < 4
    ensures Canonical(next) && View(next) == View(s) + [Entry(kind, target)] && next.len == s.len + 1
  {
    next := Stack(s.entries[s.len := target * 4 + kind], s.len + 1);
    PackView(kind, target);
  }

  lemma PopsAtUnique(stack: seq<Entry>, kind: nat, j: nat, k: nat)
    requires PopsAt(stack, kind, j) && PopsAt(stack, kind, k)
    ensures j == k
  {
  }

  /** The pop loop: it ends at the one entry a pop can end at.  `None` is the loop's
      error return. */
  method PopTo(s: Stack, kind: nat) returns (r: Option<(nat, Stack)>)
    requires Canonical(s)
    ensures r.None? ==> forall j: nat :: !PopsAt(View(s), kind, j)
    ensures r.Some? ==>
              var (target, next) := r.value;
              && Canonical(next) && next.len < s.len && PopsAt(View(s), kind, next.len)
              && View(next) == View(s)[..next.len] && target == View(s)[next.len].target
              && forall j: nat :: PopsAt(View(s), kind, j) ==> j == next.len
  {
    var next := s;
    while true
      invariant Canonical(next) && next.len <= s.len
      invariant forall i :: 0 <= i < next.len ==> next.entries[i] == s.entries[i]
      invariant forall m :: next.len <= m < s.len ==>
                  View(s)[m].kind != kind && Crossable(kind, View(s)[m].kind)
      decreases next.len
    {
      if next.len == 0 { return None; }
      var entry := next.entries[next.len - 1];
      next := Stack(next.entries[next.len - 1 := 0], next.len - 1);
      var ty := entry % 4;
      assert View(s)[next.len] == Unpack(entry);
      if ty == kind {
        assert View(next) == View(s)[..next.len];
        forall j: nat | PopsAt(View(s), kind, j)
          ensures j == next.len
        {
          PopsAtUnique(View(s), kind, j, next.len);
        }
        return Some((entry / 4, next));
      }
      if kind == 1 || (kind == 3 && ty != 1) || (kind == 2 && ty == 2) {
        return None;
      }
    }
  }

  // ---------------------------------------------------------------------------
  // The worklist
  // ---------------------------------------------------------------------------

  type States = seq<Option<Stack>>

  /** Configuration `c` is what the checker has on record for its instruction. */
  ghost predicate Recorded(states: States, c: Config) {
    c.ip < |states| && states[c.ip].Some? && Canonical(states[c.ip].value) && View(states[c.ip].value) == c.stack
  }

  ghost function ConfigAt(states: States, ip: nat): Config
    requires ip < |states| && states[ip].Some? && Canonical(states[ip].value)
  {
    At(ip, View(states[ip].value))
  }

  /** Each record is a stack some run brings there. */
  ghost predicate AllReachable(p: Program, states: States)
    requires Decoded(p)
  {
    && |states| == |p.flows|
    && forall ip :: 0 <= ip < |states| && states[ip].Some? ==>
         Canonical(states[ip].value) && Reachable(p, ConfigAt(states, ip))
  }

  /** Everything that follows the record of `ip` is on record too. */
  ghost predicate Explored(p: Program, states: States, ip: nat)
    requires Decoded(p) && AllReachable(p, states) && ip < |states| && states[ip].Some?
  {
    && !Faults(p, ConfigAt(states, ip))
    && forall d :: Step(p, ConfigAt(states, ip), d) ==> Recorded(states, d)
  }

  ghost predicate Grows(before: States, after: States) {
    |before| == |after| && forall ip :: 0 <= ip < |before| && before[ip].Some? ==> after[ip] == before[ip]
  }

  ghost predicate DepthSoFar(p: Program, states: States, maximum: nat)
    requires Decoded(p) && AllReachable(p, states)
  {
    && (forall ip :: 0 <= ip < |states| && states[ip].Some? ==> states[ip].value.len <= maximum)
    && exists c :: Reachable(p, c) && |c.stack| == maximum
  }

  /** Every record is explored, or waits in the worklist, or is `current`. */
  ghost predicate Pending(p: Program, states: States, work: seq<nat>, current: int)
    requires Decoded(p) && AllReachable(p, states)
  {
    && Recorded(states, At(0, []))
    && (forall ip :: ip in work ==> ip < |states| && states[ip].Some?)
    && forall ip :: 0 <= ip < |states| && states[ip].Some? && ip !in work && ip != current ==> Explored(p, states, ip)
  }

  /** Two runs meet at an instruction with different stacks. */
  ghost predicate Ambiguous(p: Program)
    requires Decoded(p)
  {
    !Unambiguous(p)
  }

  ghost predicate FallsOff(p: Program)
    requires Decoded(p)
  {
    exists c :: Reachable(p, c) && c.ip >= |p.flows|
  }

  ghost predicate FaultsSomewhere(p: Program)
    requires Decoded(p)
  {
    exists c :: Reachable(p, c) && c.ip < |p.flows| && Faults(p, c)
  }

  /** What each error of the checker says about the program's runs. */
  ghost predicate Witnessed(p: Program, e: Error)
    requires Decoded(p)
  {
    match e
    case Fallthrough => FallsOff(p)
    case ControlStack => FaultsSomewhere(p) || Ambiguous(p)
    case BranchTarget => false
  }

  function Unrecorded(states: States): (n: nat)
    ensures n <= |states|
  {
    if states == [] then 0
    else (if states[|states| - 1].None? then 1 else 0) + Unrecorded(states[..|states| - 1])
  }

  lemma {:induction false} RecordingShrinks(states: States, ip: nat, s: Stack)
    requires ip < |states| && states[ip].None?
    ensures Unrecorded(states[ip := Some(s)]) == Unrecorded(states) - 1
  {
    var n := |states| - 1;
    if ip == n {
      assert states[ip := Some(s)][..n] == states[..n];
    } else {
      RecordingShrinks(states[..n], ip, s);
      assert states[ip := Some(s)][..n] == states[..n][ip := Some(s)];
    }
  }

  /** The effect of propagating `stack` to `ip` without an error. */
  ghost predicate Noted(before: States, work: seq<nat>, after: States, work': seq<nat>, ip: nat, stack: Stack) {
    if ip < |before| && before[ip].None? then
      after == before[ip := Some(stack)] && work' == work + [ip]
    else
      ip < |before| && before[ip] == Some(stack) && after == before && work' == work
  }

  /** `propagate`: record a stack for `ip`, or compare it with the one on record. */
  method Propagate(p: Program, ip: nat, stack: Stack, states: array<Option<Stack>>, work: seq<nat>)
    returns (r: Result<seq<nat>, Error>)
    requires Decoded(p) && AllReachable(p, states[..])
    requires Canonical(stack) && Reachable(p, At(ip, View(stack)))
    modifies states
    ensures r.Ok? ==> Noted(old(states[..]), work, states[..], r.value, ip, stack)
    ensures r.Err? ==> Witnessed(p, r.error)
  {
    if ip >= states.Length {
      return Err(Fallthrough);
    }
    match states[ip]
    case Some(previous) =>
      if previous != stack {
        assert Reachable(p, ConfigAt(states[..], ip));
        if View(previous) == View(stack) { ViewInjective(previous, stack); }
        assert At(ip, View(stack)).ip == ConfigAt(states[..], ip).ip;
        return Err(ControlStack);
      }
      return Ok(work);
    case None =>
      states[ip] := Some(stack);
      return Ok(work + [ip]);
  }

  lemma ExploredGrows(p: Program, before: States, after: States, ip: nat)
    requires Decoded(p) && AllReachable(p, before) && AllReachable(p, after) && Grows(before, after)
    requires ip < |before| && before[ip].Some? && Explored(p, before, ip)
    ensures Explored(p, after, ip)
  {
  }

  lemma NotedRecords(p: Program, before: States, work: seq<nat>, after: States, work': seq<nat>,
                     ip: nat, stack: Stack, maximum: nat)
    requires Decoded(p) && AllReachable(p, before)
    requires Canonical(stack) && Reachable(p, At(ip, View(stack))) && stack.len <= maximum
    requires DepthSoFar(p, before, maximum)
    requires Noted(before, work, after, work', ip, stack)
    ensures AllReachable(p, after) && Grows(before, after) && Recorded(after, At(ip, View(stack)))
    ensures DepthSoFar(p, after, maximum)
  {
    forall k | 0 <= k < |after| && after[k].Some?
      ensures Canonical(after[k].value) && Reachable(p, ConfigAt(after, k)) && after[k].value.len <= maximum
    {
      assert k != ip ==> after[k] == before[k] && ConfigAt(after, k) == ConfigAt(before, k);
    }
  }

  lemma NotedKeeps(p: Program, before: States, work: seq<nat>, after: States, work': seq<nat>,
                   ip: nat, stack: Stack, current: nat, maximum: nat)
    requires Decoded(p) && AllReachable(p, before) && Pending(p, before, work, current)
    requires Canonical(stack) && Reachable(p, At(ip, View(stack))) && stack.len <= maximum
    requires DepthSoFar(p, before, maximum)
    requires Noted(before, work, after, work', ip, stack)
    ensures AllReachable(p, after) && Grows(before, after) && Recorded(after, At(ip, View(stack)))
    ensures Pending(p, after, work', current) && DepthSoFar(p, after, maximum)
    ensures Unrecorded(after) < Unrecorded(before) || (after == before && work' == work)
  {
    NotedRecords(p, before, work, after, work', ip, stack, maximum);
    if before[ip].None? {
      RecordingShrinks(before, ip, stack);
      NotedPending(p, before, work, after, ip, current);
    }
  }

  lemma NotedPending(p: Program, before: States, work: seq<nat>, after: States, ip: nat, current: nat)
    requires Decoded(p) && AllReachable(p, before) && Pending(p, before, work, current)
    requires AllReachable(p, after) && Grows(before, after)
    requires ip < |before| && before[ip].None? && after[ip].Some?
    requires forall k :: 0 <= k < |after| && k != ip ==> after[k] == before[k]
    ensures Pending(p, after, work + [ip], current)
  {
    forall k | 0 <= k < |after| && after[k].Some? && k !in work + [ip] && k != current
      ensures Explored(p, after, k)
    {
      assert k != ip && k !in work;
      ExploredGrows(p, before, after, k);
    }
  }

  /** The two tests of the guard field, and what they say of the machine. */
  lemma GuardTests(w: nat)
    ensures var guard := Field(w, 16, 4);
            && (Field(w, 16, 3) == guard % 8)
            && ((Field(w, 16, 3) != 7 || guard == 15) <==> exists b :: !Executes(guard, b))
            && (guard != 15 <==> exists b :: Executes(guard, b))
  {
    var x := w / Pow2(16);
    assert Pow2(1) == 2 && Pow2(2) == 4 && Pow2(3) == 8 && Pow2(4) == 16;
    assert x % 16 % 8 == x % 8;
    var guard := x % 16;
    assert guard < 16;
    if guard % 8 == 7 {
      assert guard == 7 || guard == 15;
      assert Executes(guard, true) == Executes(guard, false) == (guard == 7);
    } else {
      assert Executes(guard, true) != Executes(guard, false);
    }
  }

  ghost predicate CanSkip(p: Program, ip: nat)
    requires Decoded(p) && ip < |p.flows|
  {
    exists b :: !Executes(Guard(p, ip), b)
  }

  ghost predicate CanExecute(p: Program, ip: nat)
    requires Decoded(p) && ip < |p.flows|
  {
    exists b :: Executes(Guard(p, ip), b)
  }

  lemma SkipStep(p: Program, c: Config)
    requires Decoded(p) && Reachable(p, c) && c.ip < |p.flows| && CanSkip(p, c.ip)
    ensures Reachable(p, At(c.ip + 1, c.stack))
  {
    ReachableStep(p, c, At(c.ip + 1, c.stack));
  }

  lemma ExecuteStep(p: Program, c: Config, d: Config)
    requires Decoded(p) && Reachable(p, c) && c.ip < |p.flows| && CanExecute(p, c.ip) && Executed(p, c, d)
    ensures Reachable(p, d)
  {
    ReachableStep(p, c, d);
  }

  /** Propagation with the bookkeeping of the proof. */
  method Propagating(p: Program, ip: nat, stack: Stack, states: array<Option<Stack>>, work: seq<nat>,
                     ghost current: nat, ghost maximum: nat)
    returns (r: Result<seq<nat>, Error>)
    requires Decoded(p) && AllReachable(p, states[..]) && Pending(p, states[..], work, current)
    requires Canonical(stack) && Reachable(p, At(ip, View(stack))) && stack.len <= maximum
    requires DepthSoFar(p, states[..], maximum)
    modifies states
    ensures r.Ok? ==>
              && AllReachable(p, states[..]) && Grows(old(states[..]), states[..])
              && Recorded(states[..], At(ip, View(stack)))
              && Pending(p, states[..], r.value, current) && DepthSoFar(p, states[..], maximum)
              && (Unrecorded(states[..]) < old(Unrecorded(states[..])) ||
                  (states[..] == old(states[..]) && r.value == work))
    ensures r.Err? ==> Witnessed(p, r.error)
  {
    r := Propagate(p, ip, stack, states, work);
    if r.Ok? {
      NotedKeeps(p, old(states[..]), work, states[..], r.value, ip, stack, current, maximum);
    }
  }

  /** What one visit leaves behind. */
  ghost predicate Visited(p: Program, before: States, work: seq<nat>, after: States, work': seq<nat>, maximum: nat)
    requires Decoded(p)
  {
    && AllReachable(p, after) && Grows(before, after) && Pending(p, after, work', -1) && DepthSoFar(p, after, maximum)
    && maximum <= LIMIT
    && (Unrecorded(after) < Unrecorded(before) || (Unrecorded(after) == Unrecorded(before) && work' == work))
  }

  lemma VisitDone(p: Program, before: States, work: seq<nat>, after: States, work': seq<nat>, ip: nat, maximum: nat)
    requires Decoded(p) && AllReachable(p, after) && Grows(before, after) && maximum <= LIMIT
    requires Pending(p, after, work', ip) && DepthSoFar(p, after, maximum)
    requires Unrecorded(after) < Unrecorded(before) || (Unrecorded(after) == Unrecorded(before) && work' == work)
    requires ip < |after| && after[ip].Some?
    requires CanSkip(p, ip) ==> Recorded(after, At(ip + 1, ConfigAt(after, ip).stack))
    requires CanExecute(p, ip) ==>
               !Faults(p, ConfigAt(after, ip)) &&
               forall d :: Executed(p, ConfigAt(after, ip), d) ==> Recorded(after, d)
    ensures Visited(p, before, work, after, work', maximum)
  {
  }

  /** One turn of the main loop. */
  method Visit(p: Program, states: array<Option<Stack>>, work: seq<nat>, ip: nat, maximum: nat)
    returns (r: Result<(seq<nat>, nat), Error>)
    requires Decoded(p) && AllReachable(p, states[..]) && Pending(p, states[..], work, ip)
    requires DepthSoFar(p, states[..], maximum) && maximum <= LIMIT
    requires ip < states.Length && states[ip].Some?
    modifies states
    ensures r.Ok? ==> Visited(p, old(states[..]), work, states[..], r.value.0, r.value.1)
    ensures r.Err? ==> Witnessed(p, r.error)
  {
    ghost var before := states[..];
    var stack := states[ip].value;
    WordInRange(p, ip);
    var word := InstructionWord(p.code, ip);
    GuardTests(word);
    assert Guard(p, ip) == Field(word, 16, 4);
    var conditional := Field(word, 16, 3) != 7;
    var never := Field(word, 16, 4) == 15;
    ghost var c := ConfigAt(before, ip);
    var work' := work;
    if conditional || never {
      SkipStep(p, c);
      var skipped := Propagating(p, ip + 1, stack, states, work', ip, maximum);
      if skipped.Err? { return Err(skipped.error); }
      work' := skipped.value;
    }
    if never {
      VisitDone(p, before, work, states[..], work', ip, maximum);
      return Ok((work', maximum));
    }
    r := Execute(p, states, work', ip, maximum, stack, conditional);
    if r.Ok? {
      VisitDone(p, before, work, states[..], r.value.0, ip, r.value.1);
    }
  }

  /** Where executing the instruction leads, if anywhere: the `match` on its flow.
      The last component is the stack depth to count, if it is a push. */
  method Successor(p: Program, ip: nat, stack: Stack) returns (r: Result<Option<(nat, Stack)>, Error>)
    requires Decoded(p) && ip < |p.flows| && Canonical(stack)
    requires Reachable(p, At(ip, View(stack))) && CanExecute(p, ip)
    ensures r.Err? ==> Witnessed(p, r.error)
    ensures r.Ok? ==> !Faults(p, At(ip, View(stack)))
    ensures r.Ok? && r.value.None? ==> forall d :: !Executed(p, At(ip, View(stack)), d)
    ensures r.Ok? && r.value.Some? ==>
              var (target, next) := r.value.value;
              && Canonical(next) && Reachable(p, At(target, View(next)))
              && (next.len <= stack.len || p.flows[ip].Push?)
              && (forall d :: Executed(p, At(ip, View(stack)), d) ==> d == At(target, View(next)))
  {
    ghost var c := At(ip, View(stack));
    var target: nat, next := ip + 1, stack;
    match p.flows[ip] {
      case Next =>
      case Exit =>
        return Ok(None);
      case Branch(t) =>
        target := t;
      case Push(kind, t) =>
        if next.len == 16 {
          assert Faults(p, c);
          return Err(ControlStack);
        }
        next := PushEntry(stack, kind, t);
      case Pop(kind) =>
        var popped := PopTo(stack, kind);
        if popped.None? {
          assert Faults(p, c);
          return Err(ControlStack);
        }
        target, next := popped.value.0, popped.value.1;
        assert PopsAt(c.stack, kind, next.len);
    }
    ghost var d := At(target, View(next));
    assert Executed(p, c, d);
    ExecuteStep(p, c, d);
    return Ok(Some((target, next)));
  }

  lemma Deepest(p: Program, states: States, maximum: nat, d: Config)
    requires Decoded(p) && AllReachable(p, states) && DepthSoFar(p, states, maximum) && maximum <= LIMIT
    requires Reachable(p, d) && |d.stack| <= LIMIT
    ensures var m := if maximum > |d.stack| then maximum else |d.stack|;
            m <= LIMIT && DepthSoFar(p, states, m)
  {
  }

  /** The rest of a turn, for an instruction that may execute. */
  method Execute(p: Program, states: array<Option<Stack>>, work: seq<nat>, ip: nat, maximum: nat,
                 stack: Stack, conditional: bool)
    returns (r: Result<(seq<nat>, nat), Error>)
    requires Decoded(p) && AllReachable(p, states[..]) && Pending(p, states[..], work, ip)
    requires DepthSoFar(p, states[..], maximum) && maximum <= LIMIT
    requires ip < states.Length && states[ip] == Some(stack) && CanExecute(p, ip)
    requires conditional ==> Recorded(states[..], At(ip + 1, View(stack)))
    modifies states
    ensures r.Ok? ==>
              var (work', maximum') := r.value;
              && AllReachable(p, states[..]) && Grows(old(states[..]), states[..]) && maximum' <= LIMIT
              && Pending(p, states[..], work', ip) && DepthSoFar(p, states[..], maximum')
              && (Unrecorded(states[..]) < old(Unrecorded(states[..])) ||
                  (states[..] == old(states[..]) && work' == work))
              && !Faults(p, At(ip, View(stack)))
              && forall d :: Executed(p, At(ip, View(stack)), d) ==> Recorded(states[..], d)
    ensures r.Err? ==> Witnessed(p, r.error)
  {
    assert ConfigAt(states[..], ip) == At(ip, View(stack));
    var successor := Successor(p, ip, stack);
    if successor.Err? { return Err(successor.error); }
    // A conditional instruction that falls through has been propagated already.
    if successor.value.None? || (p.flows[ip].Next? && conditional) {
      return Ok((work, maximum));
    }
    var (target, next) := successor.value.value;
    Deepest(p, states[..], maximum, At(target, View(next)));
    var maximum' := if p.flows[ip].Push? && maximum < next.len then next.len else maximum;
    var w := Propagating(p, target, next, states, work, ip, maximum');
    if w.Err? { return Err(w.error); }
    return Ok((w.value, maximum'));
  }

  /** `states` and `work` before the loop. */
  method Initial(p: Program) returns (states: array<Option<Stack>>, work: seq<nat>)
    requires Decoded(p)
    ensures fresh(states) && work == [0]
    ensures AllReachable(p, states[..]) && Pending(p, states[..], work, -1) && DepthSoFar(p, states[..], 0)
  {
    states := new Option<Stack>[|p.flows|](_ => None);
    states[0] := Some(EMPTY);
    work := [0];
    ReachableStart(p);
    assert View(EMPTY) == [];
    assert ConfigAt(states[..], 0) == At(0, []);
  }

  lemma PopWork(p: Program, states: States, work: seq<nat>)
    requires Decoded(p) && AllReachable(p, states) && Pending(p, states, work, -1) && work != []
    ensures var ip := work[|work| - 1];
            ip < |states| && states[ip].Some? && Pending(p, states, work[..|work| - 1], ip)
  {
    var ip, rest := work[|work| - 1], work[..|work| - 1];
    assert work == rest + [ip];
    assert ip in work && forall k :: k in rest ==> k in work;
  }

  /** Accepted exactly when every run is safe and meets each instruction with one
      stack; then the result is the greatest depth any run attains.  An error
      comes with runs that show it. */
  method ProveControl(p: Program) returns (r: Result<nat, Error>)
    requires Decoded(p)
    ensures r.Ok? <==> Safe(p) && Unambiguous(p)
    ensures r.Ok? ==> r.value <= LIMIT && GreatestDepth(p, r.value)
    ensures r.Err? ==> Witnessed(p, r.error)
  {
    var states, work := Initial(p);
    var maximum: nat := 0;
    while work != []
      invariant AllReachable(p, states[..]) && Pending(p, states[..], work, -1)
      invariant DepthSoFar(p, states[..], maximum) && maximum <= LIMIT
      decreases Unrecorded(states[..]), |work|
    {
      PopWork(p, states[..], work);
      var ip := work[|work| - 1];
      work := work[..|work| - 1];
      var visited := Visit(p, states, work, ip, maximum);
      if visited.Err? {
        WitnessRefutes(p, visited.error);
        return Err(visited.error);
      }
      work, maximum := visited.value.0, visited.value.1;
    }
    AllExplored(p, states[..], maximum);
    return Ok(maximum);
  }

  lemma WitnessRefutes(p: Program, e: Error)
    requires Decoded(p) && Witnessed(p, e)
    ensures !(Safe(p) && Unambiguous(p))
  {
  }

  lemma {:induction false} RunRecorded(p: Program, states: States, run: seq<Config>, n: nat)
    requires Decoded(p) && AllReachable(p, states) && Pending(p, states, [], -1)
    requires IsRun(p, run) && n < |run|
    ensures Recorded(states, run[n])
  {
    if n > 0 {
      RunRecorded(p, states, run, n - 1);
      assert Step(p, run[n - 1], run[n - 1 + 1]);
      assert ConfigAt(states, run[n - 1].ip) == run[n - 1];
      assert Explored(p, states, run[n - 1].ip);
    }
  }

  lemma AllExplored(p: Program, states: States, maximum: nat)
    requires Decoded(p) && AllReachable(p, states) && Pending(p, states, [], -1)
    requires DepthSoFar(p, states, maximum)
    ensures Safe(p) && Unambiguous(p) && GreatestDepth(p, maximum)
  {
    forall c | Reachable(p, c)
      ensures Recorded(states, c) && !Faults(p, c) && |c.stack| <= maximum
    {
      var run :| IsRun(p, run) && run[|run| - 1] == c;
      RunRecorded(p, states, run, |run| - 1);
      assert Explored(p, states, c.ip);
      assert ConfigAt(states, c.ip) == c;
    }
  }
}
