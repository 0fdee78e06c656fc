/** The submit wire format (`maxwell-submit-wire`): one canonical payload per
    submission, and a decoder that accepts exactly those. */
module SubmitWire {
  import opened Wrappers
  import opened Powers

  type byte = x: nat | x < 0x100

  type u16 = x: nat | x < 0x1_0000

  type u32 = x: nat | x < 0x1_0000_0000

  type u64 = x: nat | x < 0x1_0000_0000_0000_0000

  const MAGIC: seq<byte> := [0x47, 0x4D, 0x32, 0x53]
  const VERSION_MAJOR := 1
  const VERSION_MINOR := 1
  const HEADER_SIZE := 64
  const RESOURCE_SIZE := 32
  const RELOCATION_SIZE := 32
  const MAX_SUBMIT_SIZE := 2 * 1024 * 1024
  const OPERATION_WORDS := 64
  const MAX_COMMAND_WORDS := 64 * 1024
  const MAX_RESOURCES := 1024
  const MAX_RELOCATIONS := 8192
  const ACCESS_READ := 1
  const SHADER_SIZE := 4096
  const SHADER_VARIANTS := 15

  datatype Error =
    | Overflow | InvalidSize | UnsupportedVersion | InvalidField | ReservedNotZero | InvalidTable
    | RelocationsNotSorted | RelocationOutOfBounds | NonZeroPlaceholder

  datatype Resource = Resource(attachmentToken: u64, rangeOffset: u64, rangeSize: u64, access: u32)

  type Variant = v: nat | v < 15

  datatype Source = Attachment(index: u32) | CanonicalShader(variant: Variant)

  /** The one address encoding, `GpuVa64`, takes two words. */
  const ENCODING := 1
  const ENCODING_WORDS := 2

  datatype Relocation = Relocation(wordOffset: u32, source: Source, resourceOffset: u64, requiredSize: u64, access: u32)

  datatype Submit = Submit(commands: seq<u32>, resources: seq<Resource>, relocations: seq<Relocation>)

  // ---------------------------------------------------------------------------
  // Little-endian numbers
  // ---------------------------------------------------------------------------

  function Pow256(n: nat): (p: nat)
    ensures p > 0
  {
    if n == 0 then 1 else 256 * Pow256(n - 1)
  }

  function Bytes(v: nat, n: nat): (b: seq<byte>)
    ensures |b| == n
  {
    if n == 0 then [] else [v % 256] + Bytes(v / 256, n - 1)
  }

  function Number(b: seq<byte>): nat {
    if b == [] then 0 else b[0] + 256 * Number(b[1..])
  }

  lemma {:induction false} NumberOfBytes(v: nat, n: nat)
    requires v < Pow256(n)
    ensures Number(Bytes(v, n)) == v
  {
    if n > 0 {
      NumberOfBytes(v / 256, n - 1);
      assert Bytes(v, n)[1..] == Bytes(v / 256, n - 1);
    }
  }

  lemma {:induction false} BytesOfNumber(b: seq<byte>)
    ensures Number(b) < Pow256(|b|) && Bytes(Number(b), |b|) == b
  {
    if b != [] {
      BytesOfNumber(b[1..]);
      assert Number(b) % 256 == b[0] && Number(b) / 256 == Number(b[1..]);
    }
  }

  lemma Widths()
    ensures Pow256(2) == 0x1_0000 && Pow256(4) == 0x1_0000_0000 && Pow256(8) == 0x1_0000_0000_0000_0000
  {
    assert Pow256(0) == 1;
    assert Pow256(1) == 256;
    assert Pow256(3) == 256 * Pow256(2);
    assert Pow256(5) == 256 * Pow256(4);
    assert Pow256(6) == 256 * Pow256(5);
    assert Pow256(7) == 256 * Pow256(6);
  }

  function Field(b: seq<byte>, offset: nat, n: nat): seq<byte>
    requires offset + n <= |b|
  {
    b[offset..offset + n]
  }

  function GetU16(b: seq<byte>, offset: nat): (v: u16)
    requires offset + 2 <= |b|
  {
    Widths();
    BytesOfNumber(Field(b, offset, 2));
    Number(Field(b, offset, 2))
  }

  function GetU32(b: seq<byte>, offset: nat): (v: u32)
    requires offset + 4 <= |b|
  {
    Widths();
    BytesOfNumber(Field(b, offset, 4));
    Number(Field(b, offset, 4))
  }

  function GetU64(b: seq<byte>, offset: nat): (v: u64)
    requires offset + 8 <= |b|
  {
    Widths();
    BytesOfNumber(Field(b, offset, 8));
    Number(Field(b, offset, 8))
  }

  // ---------------------------------------------------------------------------
  // The tables
  // ---------------------------------------------------------------------------

  datatype Layout = Layout(total: nat, commandsOffset: nat, resourcesOffset: nat, relocationsOffset: nat)

  function AlignUp(value: nat, alignment: nat): nat
    requires alignment > 0
  {
    AndNot(value + (alignment - 1), alignment - 1)
  }

  function GetLayout(commands: nat, resources: nat, relocations: nat): Result<Layout, Error> {
    if commands == 0 || commands % OPERATION_WORDS != 0 || commands > MAX_COMMAND_WORDS
       || resources > MAX_RESOURCES || relocations > MAX_RELOCATIONS then
      Err(InvalidSize)
    else
      var resourcesOffset := AlignUp(HEADER_SIZE + commands * 4, 8);
      var relocationsOffset := resourcesOffset + resources * RESOURCE_SIZE;
      var total := relocationsOffset + relocations * RELOCATION_SIZE;
      if total > MAX_SUBMIT_SIZE || total > 0xFFFF_FFFF then Err(InvalidSize)
      else Ok(Layout(total, HEADER_SIZE, resourcesOffset, relocationsOffset))
  }

  predicate CountsOk(commands: nat, resources: nat, relocations: nat) {
    0 < commands <= MAX_COMMAND_WORDS && commands % OPERATION_WORDS == 0 && resources <= MAX_RESOURCES && relocations <= MAX_RELOCATIONS
  }

  /** The command table ends at a multiple of eight. */
  lemma TableAligned(commands: nat)
    requires commands % OPERATION_WORDS == 0
    ensures AlignUp(HEADER_SIZE + commands * 4, 8) == HEADER_SIZE + commands * 4
  {
    hide AndNot;
    var operations := commands / OPERATION_WORDS;
    assert Pow2(3) == 8;
    assert commands == 64 * operations;
    AndNotLow(64 + 256 * operations + 7, 3);
    MultipleMod(8 + 32 * operations, 8);
  }

  /** Counts within their limits always fit the transport: no other check of the
      layout ever fails, and the tables lie back to back without padding. */
  lemma LayoutFits(commands: nat, resources: nat, relocations: nat)
    ensures GetLayout(commands, resources, relocations).Ok? <==> CountsOk(commands, resources, relocations)
    ensures CountsOk(commands, resources, relocations) ==>
              GetLayout(commands, resources, relocations) ==
              Ok(Layout(HEADER_SIZE + commands * 4 + resources * 32 + relocations * 32, HEADER_SIZE,
                        HEADER_SIZE + commands * 4, HEADER_SIZE + commands * 4 + resources * 32))
  {
    hide AlignUp;
    if CountsOk(commands, resources, relocations) {
      TableAligned(commands);
    }
  }

  /** All bits of `a` are bits of `b`: `a & !b == 0`. */
  predicate BitsWithin(a: nat, b: nat) {
    a == 0 || (a % 2 <= b % 2 && BitsWithin(a / 2, b / 2))
  }

  predicate AccessOk(access: u32) {
    access != 0 && BitsWithin(access, 3)
  }

  lemma AccessValues(access: u32)
    ensures AccessOk(access) <==> access == 1 || access == 2 || access == 3
  {
    if access > 3 {
      assert access / 2 / 2 != 0;
      assert !BitsWithin(access / 2 / 2, 0) by { NoBits(access / 2 / 2); }
      assert !BitsWithin(access / 2, 1);
    } else {
      assert BitsWithin(0, 0) && BitsWithin(1, 1) && BitsWithin(0, 1);
    }
  }

  lemma {:induction false} NoBits(a: nat)
    requires a > 0
    ensures !BitsWithin(a, 0)
  {
    if a % 2 == 0 { NoBits(a / 2); }
  }

  predicate ResourceOk(r: Resource) {
    AccessOk(r.access) && r.attachmentToken != 0 && r.rangeSize != 0 && r.rangeOffset + r.rangeSize < 0x1_0000_0000_0000_0000
  }

  /** What is wrong with a relocation, in the order it is checked. */
  function CheckRelocation(r: Relocation, previousEnd: Option<nat>, commands: seq<u32>, resources: seq<Resource>): Option<Error> {
    if !AccessOk(r.access) then Some(InvalidField)
    else if previousEnd.Some? && previousEnd.value > r.wordOffset then Some(RelocationsNotSorted)
    else
      var wrong := CheckSource(r, resources);
      if wrong.Some? then wrong
      else if r.wordOffset + ENCODING_WORDS > 0xFFFF_FFFF then Some(Overflow)
      else if r.wordOffset + ENCODING_WORDS > |commands| then Some(RelocationOutOfBounds)
      else if commands[r.wordOffset..r.wordOffset + ENCODING_WORDS] != [0, 0] then Some(NonZeroPlaceholder)
      else None
  }

  function CheckSource(r: Relocation, resources: seq<Resource>): Option<Error> {
    match r.source
    case Attachment(index) =>
      if index >= |resources| then Some(RelocationOutOfBounds)
      else if !BitsWithin(r.access, resources[index].access) || r.requiredSize == 0 then Some(RelocationOutOfBounds)
      else if r.resourceOffset + r.requiredSize > 0xFFFF_FFFF_FFFF_FFFF then Some(Overflow)
      else if r.resourceOffset + r.requiredSize > resources[index].rangeSize then Some(RelocationOutOfBounds)
      else None
    case CanonicalShader(_) =>
      if r.resourceOffset != 0 || r.requiredSize != SHADER_SIZE || r.access != ACCESS_READ then Some(RelocationOutOfBounds)
      else None
  }

  function PreviousEnd(relocations: seq<Relocation>, n: nat): Option<nat>
    requires n <= |relocations|
  {
    if n == 0 then None else Some(relocations[n - 1].wordOffset + ENCODING_WORDS)
  }

  ghost predicate RelocationsOk(s: Submit, n: nat)
    requires n <= |s.relocations|
  {
    forall i :: 0 <= i < n ==> CheckRelocation(s.relocations[i], PreviousEnd(s.relocations, i), s.commands, s.resources).None?
  }

  /** What can be submitted. */
  ghost predicate Valid(s: Submit) {
    && CountsOk(|s.commands|, |s.resources|, |s.relocations|)
    && (forall i :: 0 <= i < |s.resources| ==> ResourceOk(s.resources[i]))
    && RelocationsOk(s, |s.relocations|)
  }

  lemma CheckedRelocation(r: Relocation, previousEnd: Option<nat>, commands: seq<u32>, resources: seq<Resource>)
    requires CheckRelocation(r, previousEnd, commands, resources).None?
    ensures r.wordOffset + ENCODING_WORDS <= |commands| && (previousEnd.Some? ==> previousEnd.value <= r.wordOffset)
    ensures commands[r.wordOffset] == 0 && commands[r.wordOffset + 1] == 0
  {
    hide AccessOk, CheckSource;
    var words := commands[r.wordOffset..r.wordOffset + ENCODING_WORDS];
    assert words[0] == commands[r.wordOffset] && words[1] == commands[r.wordOffset + 1];
  }

  /** The relocated addresses of a valid submission are pairs of zero words inside the
      command table, in order, none overlapping another. */
  lemma {:induction false} RelocationsApart(s: Submit, i: nat, j: nat)
    requires Valid(s) && i < j < |s.relocations|
    ensures s.relocations[i].wordOffset + ENCODING_WORDS <= s.relocations[j].wordOffset
    ensures s.relocations[j].wordOffset + ENCODING_WORDS <= |s.commands|
    decreases j - i
  {
    hide CheckRelocation, CountsOk, ResourceOk;
    CheckedRelocation(s.relocations[j], PreviousEnd(s.relocations, j), s.commands, s.resources);
    if i < j - 1 { RelocationsApart(s, i, j - 1); }
  }

  lemma RelocationsZero(s: Submit, i: nat)
    requires Valid(s) && i < |s.relocations|
    ensures s.relocations[i].wordOffset + ENCODING_WORDS <= |s.commands|
    ensures s.commands[s.relocations[i].wordOffset] == 0 && s.commands[s.relocations[i].wordOffset + 1] == 0
  {
    hide CheckRelocation, CountsOk, ResourceOk;
    CheckedRelocation(s.relocations[i], PreviousEnd(s.relocations, i), s.commands, s.resources);
  }

  // ---------------------------------------------------------------------------
  // What the checks authorize
  // ---------------------------------------------------------------------------

  predicate MayRead(access: nat) { access == 1 || access == 3 }

  predicate MayWrite(access: nat) { access == 2 || access == 3 }

  /** A visible range that ends below 2^64. */
  predicate Visible(r: Resource) {
    1 <= r.access <= 3 && 0 < r.attachmentToken && 0 < r.rangeSize && r.rangeOffset + r.rangeSize < 0x1_0000_0000_0000_0000
  }

  /** The relocated address stays inside what its resource makes visible, and asks for
      no access the resource does not grant; or it is a whole shader, read only. */
  predicate Grants(resources: seq<Resource>, r: Relocation) {
    match r.source
    case Attachment(k) =>
      && k < |resources| && 0 < r.requiredSize && r.resourceOffset + r.requiredSize <= resources[k].rangeSize
      && (MayRead(r.access) ==> MayRead(resources[k].access)) && (MayWrite(r.access) ==> MayWrite(resources[k].access))
    case CanonicalShader(_) => r.resourceOffset == 0 && r.requiredSize == 4096 && r.access == 1
  }

  /** The placeholder is a pair of zero words of the command table. */
  predicate Placed(commands: seq<u32>, r: Relocation) {
    r.wordOffset + 2 <= |commands| && commands[r.wordOffset] == 0 && commands[r.wordOffset + 1] == 0
  }

  /** What the wire format is for: nothing but this reaches the hardware. */
  ghost predicate Authorized(s: Submit) {
    && 0 < |s.commands| <= 65536 && |s.commands| % 64 == 0 && |s.resources| <= 1024 && |s.relocations| <= 8192
    && (forall i :: 0 <= i < |s.resources| ==> Visible(s.resources[i]))
    && (forall i :: 0 <= i < |s.relocations| ==>
          var r := s.relocations[i]; 1 <= r.access <= 3 && Grants(s.resources, r) && Placed(s.commands, r))
    && (forall i, j :: 0 <= i < j < |s.relocations| ==> s.relocations[i].wordOffset + 2 <= s.relocations[j].wordOffset)
  }

  /** Between valid accesses bits are what they stand for. */
  lemma AccessBits(a: nat, b: nat)
    requires 1 <= a <= 3 && 1 <= b <= 3
    ensures BitsWithin(a, b) <==> (MayRead(a) ==> MayRead(b)) && (MayWrite(a) ==> MayWrite(b))
  {
    assert a / 2 / 2 == 0 && b / 2 / 2 == 0;
    assert BitsWithin(a / 2 / 2, b / 2 / 2);
    assert BitsWithin(a / 2, b / 2) <==> a / 2 == 0 || a / 2 % 2 <= b / 2 % 2;
  }

  lemma SourceGrants(r: Relocation, resources: seq<Resource>)
    requires 1 <= r.access <= 3 && forall i :: 0 <= i < |resources| ==> 1 <= resources[i].access <= 3
    ensures CheckSource(r, resources).None? <==> Grants(resources, r)
  {
    hide BitsWithin, MayRead, MayWrite;
    if r.source.Attachment? && r.source.index < |resources| { AccessBits(r.access, resources[r.source.index].access); }
  }

  lemma PlaceChecked(r: Relocation, commands: seq<u32>)
    requires |commands| <= MAX_COMMAND_WORDS
    ensures Placed(commands, r) <==>
            r.wordOffset + ENCODING_WORDS <= 0xFFFF_FFFF && r.wordOffset + ENCODING_WORDS <= |commands| &&
            commands[r.wordOffset..r.wordOffset + ENCODING_WORDS] == [0, 0]
  {
    if r.wordOffset + 2 <= |commands| {
      var words := commands[r.wordOffset..r.wordOffset + ENCODING_WORDS];
      assert words[0] == commands[r.wordOffset] && words[1] == commands[r.wordOffset + 1];
    }
  }

  lemma RelocationMeans(r: Relocation, previousEnd: Option<nat>, commands: seq<u32>, resources: seq<Resource>)
    requires |commands| <= MAX_COMMAND_WORDS && forall i :: 0 <= i < |resources| ==> 1 <= resources[i].access <= 3
    ensures CheckRelocation(r, previousEnd, commands, resources).None? <==>
            && 1 <= r.access <= 3 && (previousEnd.Some? ==> previousEnd.value <= r.wordOffset)
            && Grants(resources, r) && Placed(commands, r)
  {
    AccessValues(r.access);
    hide AccessOk, CheckSource, Grants, Placed;
    if 1 <= r.access <= 3 { SourceGrants(r, resources); }
    PlaceChecked(r, commands);
  }

  /** Which complaint a relocation draws: an access that is none, one that begins before
      the last one ended, a sum that wraps, a placeholder that is not zero, and in all
      other cases that it points outside. */
  lemma RelocationErrors(r: Relocation, previousEnd: Option<nat>, commands: seq<u32>, resources: seq<Resource>)
    requires |commands| <= MAX_COMMAND_WORDS && forall i :: 0 <= i < |resources| ==> 1 <= resources[i].access <= 3
    ensures var wrong := CheckRelocation(r, previousEnd, commands, resources);
            var late := previousEnd.Some? && previousEnd.value > r.wordOffset;
            var wraps := r.source.Attachment? && r.source.index < |resources| && r.requiredSize > 0
                         && BitsWithin(r.access, resources[r.source.index].access) && r.resourceOffset + r.requiredSize >= 0x1_0000_0000_0000_0000;
            && (wrong == Some(InvalidField) <==> !(1 <= r.access <= 3))
            && (wrong == Some(RelocationsNotSorted) <==> 1 <= r.access <= 3 && late)
            && (wrong == Some(Overflow) <==> 1 <= r.access <= 3 && !late && (wraps || (Grants(resources, r) && r.wordOffset + 2 >= 0x1_0000_0000)))
            && (wrong == Some(NonZeroPlaceholder) <==>
                  1 <= r.access <= 3 && !late && Grants(resources, r) && r.wordOffset + 2 <= |commands| && !Placed(commands, r))
            && (wrong.Some? ==> wrong.value in {InvalidField, RelocationsNotSorted, Overflow, NonZeroPlaceholder, RelocationOutOfBounds})
  {
    AccessValues(r.access);
    hide AccessOk, BitsWithin, MayRead, MayWrite;
    if 1 <= r.access <= 3 { SourceGrants(r, resources); }
    PlaceChecked(r, commands);
    if r.source.Attachment? && r.source.index < |resources| && 1 <= r.access <= 3 { AccessBits(r.access, resources[r.source.index].access); }
  }

  lemma {:induction false} InOrder(s: Submit, i: nat, j: nat)
    requires i < j < |s.relocations|
    requires forall k :: 0 < k < |s.relocations| ==> s.relocations[k - 1].wordOffset + 2 <= s.relocations[k].wordOffset
    ensures s.relocations[i].wordOffset + 2 <= s.relocations[j].wordOffset
    decreases j - i
  {
    if i < j - 1 { InOrder(s, i, j - 1); }
  }

  lemma RelocationsMean(s: Submit)
    requires |s.commands| <= MAX_COMMAND_WORDS && forall i :: 0 <= i < |s.resources| ==> 1 <= s.resources[i].access <= 3
    ensures RelocationsOk(s, |s.relocations|) <==>
            && (forall i :: 0 <= i < |s.relocations| ==>
                  1 <= s.relocations[i].access <= 3 && Grants(s.resources, s.relocations[i]) && Placed(s.commands, s.relocations[i]))
            && (forall i, j :: 0 <= i < j < |s.relocations| ==> s.relocations[i].wordOffset + 2 <= s.relocations[j].wordOffset)
  {
    hide CheckRelocation, Grants, Placed;
    forall i: nat | i < |s.relocations|
      ensures CheckRelocation(s.relocations[i], PreviousEnd(s.relocations, i), s.commands, s.resources).None? <==>
              && 1 <= s.relocations[i].access <= 3 && Grants(s.resources, s.relocations[i]) && Placed(s.commands, s.relocations[i])
              && (i > 0 ==> s.relocations[i - 1].wordOffset + 2 <= s.relocations[i].wordOffset)
    {
      RelocationMeans(s.relocations[i], PreviousEnd(s.relocations, i), s.commands, s.resources);
    }
    if RelocationsOk(s, |s.relocations|) {
      forall i: nat, j: nat | i < j < |s.relocations|
        ensures s.relocations[i].wordOffset + 2 <= s.relocations[j].wordOffset
      {
        InOrder(s, i, j);
      }
    }
  }

  /** The checks let through exactly what is authorized. */
  lemma ValidMeans(s: Submit)
    ensures Valid(s) <==> Authorized(s)
  {
    forall i | 0 <= i < |s.resources|
      ensures ResourceOk(s.resources[i]) <==> Visible(s.resources[i])
    {
      AccessValues(s.resources[i].access);
    }
    hide ResourceOk, RelocationsOk, Grants, Placed;
    if |s.commands| <= MAX_COMMAND_WORDS && forall i :: 0 <= i < |s.resources| ==> Visible(s.resources[i]) { RelocationsMean(s); }
  }

  // ---------------------------------------------------------------------------
  // The encoding
  // ---------------------------------------------------------------------------

  function Zeros(n: nat): (z: seq<byte>)
    ensures |z| == n && forall i :: 0 <= i < n ==> z[i] == 0
  {
    if n == 0 then [] else [0] + Zeros(n - 1)
  }

  function VersionBytes(minor: nat): (b: seq<byte>)
    ensures |b| == 12
  {
    MAGIC + Bytes(VERSION_MAJOR, 2) + Bytes(minor, 2) + Bytes(HEADER_SIZE, 2) + Bytes(0, 2)
  }

  function HeaderStart(s: Submit, minor: nat): (b: seq<byte>)
    ensures |b| == 28
  {
    var commandsSize, resourcesSize := |s.commands| * 4, |s.resources| * 32;
    VersionBytes(minor)
    + Bytes(HEADER_SIZE + commandsSize + resourcesSize + |s.relocations| * 32, 4)
    + Bytes(HEADER_SIZE, 4) + Bytes(|s.commands|, 4) + Bytes(HEADER_SIZE + commandsSize, 4)
  }

  function HeaderBytes(s: Submit, minor: nat): (b: seq<byte>)
    ensures |b| == HEADER_SIZE
  {
    HeaderStart(s, minor)
    + Bytes(|s.resources|, 4) + Bytes(HEADER_SIZE + |s.commands| * 4 + |s.resources| * 32, 4) + Bytes(|s.relocations|, 4)
    + Zeros(24)
  }

  function ResourceBytes(r: Resource): (b: seq<byte>)
    ensures |b| == RESOURCE_SIZE
  {
    Bytes(r.attachmentToken, 8) + Bytes(r.rangeOffset, 8) + Bytes(r.rangeSize, 8) + Bytes(r.access, 4) + Zeros(4)
  }

  function SourceKind(s: Source): nat {
    if s.Attachment? then 0 else 1
  }

  function SourceIndex(s: Source): nat {
    match s
    case Attachment(i) => i
    case CanonicalShader(v) => v
  }

  function RelocationBytes(r: Relocation): (b: seq<byte>)
    ensures |b| == RELOCATION_SIZE
  {
    Bytes(r.wordOffset, 4) + Bytes(SourceIndex(r.source), 4) + Bytes(r.resourceOffset, 8) + Bytes(r.requiredSize, 8)
    + Bytes(r.access, 4) + Bytes(ENCODING, 2) + Bytes(SourceKind(r.source), 2)
  }

  function CommandTable(commands: seq<u32>, n: nat): (b: seq<byte>)
    requires n <= |commands|
    ensures |b| == n * 4
  {
    if n == 0 then [] else CommandTable(commands, n - 1) + Bytes(commands[n - 1], 4)
  }

  function ResourceTable(resources: seq<Resource>, n: nat): (b: seq<byte>)
    requires n <= |resources|
    ensures |b| == n * 32
  {
    if n == 0 then [] else ResourceTable(resources, n - 1) + ResourceBytes(resources[n - 1])
  }

  function RelocationTable(relocations: seq<Relocation>, n: nat): (b: seq<byte>)
    requires n <= |relocations|
    ensures |b| == n * 32
  {
    if n == 0 then [] else RelocationTable(relocations, n - 1) + RelocationBytes(relocations[n - 1])
  }

  /** The payload, in the given minor version. */
  function Encoding(s: Submit, minor: nat): (b: seq<byte>)
    ensures |b| == HEADER_SIZE + |s.commands| * 4 + |s.resources| * 32 + |s.relocations| * 32
  {
    HeaderBytes(s, minor) + CommandTable(s.commands, |s.commands|) + ResourceTable(s.resources, |s.resources|)
    + RelocationTable(s.relocations, |s.relocations|)
  }

  // ---------------------------------------------------------------------------
  // Writing it
  // ---------------------------------------------------------------------------

  /** `output` holds `done` and nothing but zeros behind it. */
  ghost predicate Holds(output: array<byte>, done: seq<byte>)
    reads output
  {
    |done| <= output.Length && output[..|done|] == done && forall i :: |done| <= i < output.Length ==> output[i] == 0
  }

  method Put(output: array<byte>, offset: nat, b: seq<byte>, ghost done: seq<byte>)
    requires Holds(output, done) && offset == |done| && offset + |b| <= output.Length
    modifies output
    ensures Holds(output, done + b)
  {
    for i := 0 to |b|
      invariant output[..offset] == done && output[offset..offset + i] == b[..i]
      invariant forall k :: offset + i <= k < output.Length ==> output[k] == 0
    {
      output[offset + i] := b[i];
      assert output[offset..offset + i + 1] == output[offset..offset + i] + [b[i]];
    }
    assert output[..offset + |b|] == output[..offset] + output[offset..offset + |b|];
  }

  /** The first `k` bytes after `done` are reserved: they are zero already. */
  lemma Skip(output: array<byte>, done: seq<byte>, k: nat)
    requires Holds(output, done) && |done| + k <= output.Length
    ensures Holds(output, done + Zeros(k))
  {
    var n := |done|;
    assert output[..n + k] == output[..n] + output[n..n + k];
    assert output[n..n + k] == Zeros(k);
  }

  method PutHeader(output: array<byte>, s: Submit, layout: Layout)
    requires Holds(output, []) && HEADER_SIZE <= output.Length
    requires layout == Layout(HEADER_SIZE + |s.commands| * 4 + |s.resources| * 32 + |s.relocations| * 32, HEADER_SIZE,
                              HEADER_SIZE + |s.commands| * 4, HEADER_SIZE + |s.commands| * 4 + |s.resources| * 32)
    modifies output
    ensures Holds(output, HeaderBytes(s, VERSION_MINOR))
  {
    PutVersion(output);
    PutStart(output, s, layout);
    hide Holds, HeaderStart;
    ghost var done := HeaderStart(s, VERSION_MINOR);
    Put(output, 28, Bytes(|s.resources|, 4), done);
    done := done + Bytes(|s.resources|, 4);
    Put(output, 32, Bytes(layout.relocationsOffset, 4), done);
    done := done + Bytes(layout.relocationsOffset, 4);
    Put(output, 36, Bytes(|s.relocations|, 4), done);
    Skip(output, done + Bytes(|s.relocations|, 4), 24);
  }

  method PutVersion(output: array<byte>)
    requires Holds(output, []) && HEADER_SIZE <= output.Length
    modifies output
    ensures Holds(output, VersionBytes(VERSION_MINOR))
  {
    hide Holds;
    assert [] + MAGIC == MAGIC;
    Put(output, 0, MAGIC, []);
    ghost var done := MAGIC;
    Put(output, 4, Bytes(VERSION_MAJOR, 2), done);
    done := done + Bytes(VERSION_MAJOR, 2);
    Put(output, 6, Bytes(VERSION_MINOR, 2), done);
    done := done + Bytes(VERSION_MINOR, 2);
    Put(output, 8, Bytes(HEADER_SIZE, 2), done);
    done := done + Bytes(HEADER_SIZE, 2);
    Put(output, 10, Bytes(0, 2), done);
  }

  method PutStart(output: array<byte>, s: Submit, layout: Layout)
    requires Holds(output, VersionBytes(VERSION_MINOR)) && HEADER_SIZE <= output.Length
    requires layout == Layout(HEADER_SIZE + |s.commands| * 4 + |s.resources| * 32 + |s.relocations| * 32, HEADER_SIZE,
                              HEADER_SIZE + |s.commands| * 4, HEADER_SIZE + |s.commands| * 4 + |s.resources| * 32)
    modifies output
    ensures Holds(output, HeaderStart(s, VERSION_MINOR))
  {
    hide Holds, VersionBytes;
    ghost var done := VersionBytes(VERSION_MINOR);
    Put(output, 12, Bytes(layout.total, 4), done);
    done := done + Bytes(layout.total, 4);
    Put(output, 16, Bytes(layout.commandsOffset, 4), done);
    done := done + Bytes(layout.commandsOffset, 4);
    Put(output, 20, Bytes(|s.commands|, 4), done);
    done := done + Bytes(|s.commands|, 4);
    Put(output, 24, Bytes(layout.resourcesOffset, 4), done);
  }

  method PutCommands(output: array<byte>, s: Submit, offset: nat, ghost done: seq<byte>)
    requires Holds(output, done) && offset == |done| && offset + |s.commands| * 4 <= output.Length
    modifies output
    ensures Holds(output, done + CommandTable(s.commands, |s.commands|))
  {
    assert done + CommandTable(s.commands, 0) == done;
    hide Holds;
    for i := 0 to |s.commands|
      invariant Holds(output, done + CommandTable(s.commands, i))
    {
      Put(output, offset + i * 4, Bytes(s.commands[i], 4), done + CommandTable(s.commands, i));
      Regroup(done, CommandTable(s.commands, i), Bytes(s.commands[i], 4));
    }
  }

  lemma Regroup(a: seq<byte>, b: seq<byte>, c: seq<byte>)
    ensures (a + b) + c == a + (b + c)
  {
  }

  /** The next field of a record of which `part` is written. */
  method PutField(output: array<byte>, offset: nat, b: seq<byte>, ghost done: seq<byte>, ghost part: seq<byte>)
    requires Holds(output, done + part) && offset == |done| + |part| && offset + |b| <= output.Length
    modifies output
    ensures Holds(output, done + (part + b))
  {
    Put(output, offset, b, done + part);
    hide Holds;
    Regroup(done, part, b);
  }

  method PutResource(output: array<byte>, r: Resource, offset: nat, ghost done: seq<byte>)
    requires Holds(output, done) && offset == |done| && offset + RESOURCE_SIZE <= output.Length
    modifies output
    ensures Holds(output, done + ResourceBytes(r))
  {
    hide Holds;
    Put(output, offset, Bytes(r.attachmentToken, 8), done);
    ghost var part := Bytes(r.attachmentToken, 8);
    PutField(output, offset + 8, Bytes(r.rangeOffset, 8), done, part);
    part := part + Bytes(r.rangeOffset, 8);
    PutField(output, offset + 16, Bytes(r.rangeSize, 8), done, part);
    part := part + Bytes(r.rangeSize, 8);
    PutField(output, offset + 24, Bytes(r.access, 4), done, part);
    part := part + Bytes(r.access, 4);
    Skip(output, done + part, 4);
    Regroup(done, part, Zeros(4));
  }

  method PutRelocation(output: array<byte>, r: Relocation, offset: nat, ghost done: seq<byte>)
    requires Holds(output, done) && offset == |done| && offset + RELOCATION_SIZE <= output.Length
    modifies output
    ensures Holds(output, done + RelocationBytes(r))
  {
    hide Holds;
    var kind, index := SourceKind(r.source), SourceIndex(r.source);
    Put(output, offset, Bytes(r.wordOffset, 4), done);
    ghost var part := Bytes(r.wordOffset, 4);
    PutField(output, offset + 4, Bytes(index, 4), done, part);
    part := part + Bytes(index, 4);
    PutField(output, offset + 8, Bytes(r.resourceOffset, 8), done, part);
    part := part + Bytes(r.resourceOffset, 8);
    PutField(output, offset + 16, Bytes(r.requiredSize, 8), done, part);
    part := part + Bytes(r.requiredSize, 8);
    PutField(output, offset + 24, Bytes(r.access, 4), done, part);
    part := part + Bytes(r.access, 4);
    PutField(output, offset + 28, Bytes(ENCODING, 2), done, part);
    part := part + Bytes(ENCODING, 2);
    PutField(output, offset + 30, Bytes(kind, 2), done, part);
  }

  method PutResources(output: array<byte>, s: Submit, offset: nat, ghost done: seq<byte>)
    requires Holds(output, done) && offset == |done| && offset + |s.resources| * 32 <= output.Length
    modifies output
    ensures Holds(output, done + ResourceTable(s.resources, |s.resources|))
  {
    assert done + ResourceTable(s.resources, 0) == done;
    hide Holds;
    for i := 0 to |s.resources|
      invariant Holds(output, done + ResourceTable(s.resources, i))
    {
      PutResource(output, s.resources[i], offset + i * RESOURCE_SIZE, done + ResourceTable(s.resources, i));
      Regroup(done, ResourceTable(s.resources, i), ResourceBytes(s.resources[i]));
    }
  }

  method PutRelocations(output: array<byte>, s: Submit, offset: nat, ghost done: seq<byte>)
    requires Holds(output, done) && offset == |done| && offset + |s.relocations| * 32 <= output.Length
    modifies output
    ensures Holds(output, done + RelocationTable(s.relocations, |s.relocations|))
  {
    assert done + RelocationTable(s.relocations, 0) == done;
    hide Holds;
    for i := 0 to |s.relocations|
      invariant Holds(output, done + RelocationTable(s.relocations, i))
    {
      PutRelocation(output, s.relocations[i], offset + i * RELOCATION_SIZE, done + RelocationTable(s.relocations, i));
      Regroup(done, RelocationTable(s.relocations, i), RelocationBytes(s.relocations[i]));
    }
  }

  /** The first thing wrong with a submission's tables. */
  method Validate(s: Submit) returns (wrong: Option<Error>)
    ensures wrong.None? <==> (forall i :: 0 <= i < |s.resources| ==> ResourceOk(s.resources[i])) && RelocationsOk(s, |s.relocations|)
    ensures (exists i :: 0 <= i < |s.resources| && !ResourceOk(s.resources[i])) ==> wrong == Some(InvalidField)
    ensures wrong.Some? && (forall i :: 0 <= i < |s.resources| ==> ResourceOk(s.resources[i])) ==> exists i: nat ::
              i < |s.relocations| && RelocationsOk(s, i) && wrong == CheckRelocation(s.relocations[i], PreviousEnd(s.relocations, i), s.commands, s.resources)
  {
    hide ResourceOk, CheckRelocation;
    for i := 0 to |s.resources|
      invariant forall j :: 0 <= j < i ==> ResourceOk(s.resources[j])
    {
      if !ResourceOk(s.resources[i]) { return Some(InvalidField); }
    }
    var previousEnd: Option<nat> := None;
    for i := 0 to |s.relocations|
      invariant previousEnd == PreviousEnd(s.relocations, i) && RelocationsOk(s, i)
    {
      wrong := CheckRelocation(s.relocations[i], previousEnd, s.commands, s.resources);
      if wrong.Some? { return; }
      previousEnd := Some(s.relocations[i].wordOffset + ENCODING_WORDS);
    }
    return None;
  }

  /** `encode`: succeeds on exactly what is valid, given a buffer of the right size,
      and then fills it with the one encoding; a failure leaves the buffer alone. */
  method Encode(s: Submit, output: array<byte>) returns (r: Result<(), Error>)
    modifies output
    ensures r.Ok? <==> Valid(s) && output.Length == |Encoding(s, VERSION_MINOR)|
    ensures r.Ok? <==> Authorized(s) && output.Length == 64 + |s.commands| * 4 + |s.resources| * 32 + |s.relocations| * 32
    ensures r.Ok? ==> output[..] == Encoding(s, VERSION_MINOR)
    ensures r.Err? ==> output[..] == old(output[..])
  {
    ValidMeans(s);
    hide Authorized;
    LayoutFits(|s.commands|, |s.resources|, |s.relocations|);
    var layout := GetLayout(|s.commands|, |s.resources|, |s.relocations|);
    if layout.Err? { return Err(layout.error); }
    if output.Length != layout.value.total { return Err(InvalidSize); }
    hide ResourceOk, RelocationsOk, CountsOk;
    var wrong := Validate(s);
    if wrong.Some? { return Err(wrong.value); }
    Fill(s, output, layout.value);
    return Ok(());
  }

  method Fill(s: Submit, output: array<byte>, layout: Layout)
    requires layout == Layout(HEADER_SIZE + |s.commands| * 4 + |s.resources| * 32 + |s.relocations| * 32, HEADER_SIZE,
                              HEADER_SIZE + |s.commands| * 4, HEADER_SIZE + |s.commands| * 4 + |s.resources| * 32)
    requires output.Length == layout.total
    modifies output
    ensures output[..] == Encoding(s, VERSION_MINOR)
  {
    for i := 0 to output.Length
      invariant forall j :: 0 <= j < i ==> output[j] == 0
    {
      output[i] := 0;
    }
    assert Holds(output, []);
    hide HeaderBytes, CommandTable, ResourceTable, RelocationTable;
    ghost var header := HeaderBytes(s, VERSION_MINOR);
    PutHeader(output, s, layout);
    PutCommands(output, s, layout.commandsOffset, header);
    ghost var done := header + CommandTable(s.commands, |s.commands|);
    PutResources(output, s, layout.resourcesOffset, done);
    PutRelocations(output, s, layout.relocationsOffset, done + ResourceTable(s.resources, |s.resources|));
    assert output[..] == output[..output.Length];
  }

  // ---------------------------------------------------------------------------
  // Reading it
  // ---------------------------------------------------------------------------

  /** A validated payload; the accessors read from its bytes. */
  datatype Decoded = Decoded(bytes: seq<byte>, layout: Layout, commandsCount: nat, resourceCount: nat, relocationCount: nat) {
    predicate Fits() {
      && layout.commandsOffset + commandsCount * 4 <= layout.resourcesOffset
      && layout.resourcesOffset + resourceCount * 32 <= layout.relocationsOffset
      && layout.relocationsOffset + relocationCount * 32 <= |bytes| && 64 <= |bytes|
    }

    function CommandsWord(index: nat): Option<u32>
      requires Fits()
    {
      if index < commandsCount then Some(GetU32(bytes, layout.commandsOffset + index * 4)) else None
    }

    function ResourceAt(index: nat): Option<Resource>
      requires Fits()
    {
      if index < resourceCount then Some(ReadResource(bytes, layout.resourcesOffset + index * RESOURCE_SIZE)) else None
    }

    function RelocationAt(index: nat): Option<Relocation>
      requires Fits()
    {
      if index < relocationCount then ReadRelocation(bytes, layout.relocationsOffset + index * RELOCATION_SIZE, GetU16(bytes, 6)) else None
    }

    function Commands(): seq<u32>
      requires Fits()
    {
      seq(commandsCount, i requires 0 <= i < commandsCount => CommandsWord(i).value)
    }

    function Resources(): seq<Resource>
      requires Fits()
    {
      seq(resourceCount, i requires 0 <= i < resourceCount => ResourceAt(i).value)
    }

    predicate AllRelocations()
      requires Fits()
    {
      forall i :: 0 <= i < relocationCount ==> RelocationAt(i).Some?
    }

    function Relocations(): seq<Relocation>
      requires Fits() && AllRelocations()
    {
      seq(relocationCount, i requires 0 <= i < relocationCount => RelocationAt(i).value)
    }

    /** The submission the payload carries. */
    function Contents(): Submit
      requires Fits() && AllRelocations()
    {
      Submit(Commands(), Resources(), Relocations())
    }
  }

  function ReadResource(b: seq<byte>, offset: nat): Resource
    requires offset + RESOURCE_SIZE <= |b|
  {
    Resource(GetU64(b, offset), GetU64(b, offset + 8), GetU64(b, offset + 16), GetU32(b, offset + 24))
  }

  function ReadRelocation(b: seq<byte>, offset: nat, minor: nat): Option<Relocation>
    requires offset + RELOCATION_SIZE <= |b|
  {
    var kind, index := GetU16(b, offset + 30), GetU32(b, offset + 4);
    if kind == 0 || (kind == 1 && minor >= 1 && index < SHADER_VARIANTS) then
      if GetU16(b, offset + 28) != ENCODING then None
      else
        Some(Relocation(GetU32(b, offset), if kind == 0 then Attachment(index) else CanonicalShader(index),
                        GetU64(b, offset + 8), GetU64(b, offset + 16), GetU32(b, offset + 24)))
    else None
  }

  // ---- bytes and the numbers they stand for

  lemma FieldIs(b: seq<byte>, offset: nat, n: nat, v: nat)
    requires offset + n <= |b| && v < Pow256(n)
    ensures Number(Field(b, offset, n)) == v <==> Field(b, offset, n) == Bytes(v, n)
  {
    BytesOfNumber(Field(b, offset, n));
    NumberOfBytes(v, n);
  }

  lemma Cut(b: seq<byte>, offset: nat, n: nat, m: nat, x: seq<byte>, y: seq<byte>)
    requires offset + n + m <= |b| && |x| == n && |y| == m
    ensures Field(b, offset, n + m) == x + y <==> Field(b, offset, n) == x && Field(b, offset + n, m) == y
  {
    assert Field(b, offset, n + m) == Field(b, offset, n) + Field(b, offset + n, m);
    assert (x + y)[..n] == x && (x + y)[n..] == y;
    var f := Field(b, offset, n + m);
    assert f[..n] == Field(b, offset, n) && f[n..] == Field(b, offset + n, m);
  }

  predicate AllZero(b: seq<byte>) {
    forall i :: 0 <= i < |b| ==> b[i] == 0
  }

  lemma ZerosAre(b: seq<byte>)
    ensures AllZero(b) <==> b == Zeros(|b|)
  {
  }

  lemma ResourceRecord(b: seq<byte>, o: nat, r: Resource)
    requires o + RESOURCE_SIZE <= |b|
    ensures Field(b, o, 32) == ResourceBytes(r) <==> ReadResource(b, o) == r && GetU32(b, o + 28) == 0
  {
    hide Field, Bytes, Number;
    Widths();
    var x1, x2, x3, x4 := Bytes(r.attachmentToken, 8), Bytes(r.rangeOffset, 8), Bytes(r.rangeSize, 8), Bytes(r.access, 4);
    Cut(b, o, 28, 4, x1 + x2 + x3 + x4, Zeros(4));
    Cut(b, o, 24, 4, x1 + x2 + x3, x4);
    Cut(b, o, 16, 8, x1 + x2, x3);
    Cut(b, o, 8, 8, x1, x2);
    FieldIs(b, o, 8, r.attachmentToken);
    FieldIs(b, o + 8, 8, r.rangeOffset);
    FieldIs(b, o + 16, 8, r.rangeSize);
    FieldIs(b, o + 24, 4, r.access);
    FieldIs(b, o + 28, 4, 0);
    assert Zeros(4) == Bytes(0, 4) by { ZeroBytes(4); }
  }

  lemma {:induction false} ZeroBytes(n: nat)
    ensures Bytes(0, n) == Zeros(n)
  {
    if n > 0 { ZeroBytes(n - 1); }
  }

  /** A relocation record this minor version can carry. */
  predicate Carries(r: Relocation, minor: nat) {
    r.source.CanonicalShader? ==> minor >= 1
  }

  lemma RelocationRecord(b: seq<byte>, o: nat, r: Relocation, minor: nat)
    requires o + RELOCATION_SIZE <= |b|
    ensures Field(b, o, 32) == RelocationBytes(r) && Carries(r, minor) <==> ReadRelocation(b, o, minor) == Some(r)
  {
    hide Field, Bytes, Number;
    Widths();
    var kind, index := SourceKind(r.source), SourceIndex(r.source);
    var x1, x2, x3, x4 := Bytes(r.wordOffset, 4), Bytes(index, 4), Bytes(r.resourceOffset, 8), Bytes(r.requiredSize, 8);
    var x5, x6, x7 := Bytes(r.access, 4), Bytes(ENCODING, 2), Bytes(kind, 2);
    Cut(b, o, 30, 2, x1 + x2 + x3 + x4 + x5 + x6, x7);
    Cut(b, o, 28, 2, x1 + x2 + x3 + x4 + x5, x6);
    Cut(b, o, 24, 4, x1 + x2 + x3 + x4, x5);
    Cut(b, o, 16, 8, x1 + x2 + x3, x4);
    Cut(b, o, 8, 8, x1 + x2, x3);
    Cut(b, o, 4, 4, x1, x2);
    FieldIs(b, o, 4, r.wordOffset);
    FieldIs(b, o + 4, 4, index);
    FieldIs(b, o + 8, 8, r.resourceOffset);
    FieldIs(b, o + 16, 8, r.requiredSize);
    FieldIs(b, o + 24, 4, r.access);
    FieldIs(b, o + 28, 2, ENCODING);
    FieldIs(b, o + 30, 2, kind);
  }

  // ---- whole tables

  lemma EmptyField(b: seq<byte>, o: nat)
    requires o <= |b|
    ensures Field(b, o, 0) == []
  {
  }

  lemma {:induction false} CommandsAre(b: seq<byte>, o: nat, commands: seq<u32>, n: nat)
    requires n <= |commands| && o + n * 4 <= |b|
    ensures Field(b, o, n * 4) == CommandTable(commands, n) <==> forall i :: 0 <= i < n ==> GetU32(b, o + i * 4) == commands[i]
  {
    hide Field, Bytes, Number;
    EmptyField(b, o);
    if n > 0 {
      CommandsAre(b, o, commands, n - 1);
      Cut(b, o, (n - 1) * 4, 4, CommandTable(commands, n - 1), Bytes(commands[n - 1], 4));
      Widths();
      FieldIs(b, o + (n - 1) * 4, 4, commands[n - 1]);
    }
  }

  lemma {:induction false} ResourcesAre(b: seq<byte>, o: nat, resources: seq<Resource>, n: nat)
    requires n <= |resources| && o + n * 32 <= |b|
    ensures Field(b, o, n * 32) == ResourceTable(resources, n) <==>
            forall i :: 0 <= i < n ==> ReadResource(b, o + i * 32) == resources[i] && GetU32(b, o + i * 32 + 28) == 0
  {
    hide Field, ResourceBytes, ReadResource, GetU32;
    EmptyField(b, o);
    if n > 0 {
      ResourcesAre(b, o, resources, n - 1);
      Cut(b, o, (n - 1) * 32, 32, ResourceTable(resources, n - 1), ResourceBytes(resources[n - 1]));
      ResourceRecord(b, o + (n - 1) * 32, resources[n - 1]);
    }
  }

  lemma {:induction false} RelocationsAre(b: seq<byte>, o: nat, relocations: seq<Relocation>, n: nat, minor: nat)
    requires n <= |relocations| && o + n * 32 <= |b|
    ensures Field(b, o, n * 32) == RelocationTable(relocations, n) && (forall i :: 0 <= i < n ==> Carries(relocations[i], minor)) <==>
            forall i :: 0 <= i < n ==> ReadRelocation(b, o + i * 32, minor) == Some(relocations[i])
  {
    hide Field, RelocationBytes, ReadRelocation, Carries;
    EmptyField(b, o);
    if n > 0 {
      RelocationsAre(b, o, relocations, n - 1, minor);
      Cut(b, o, (n - 1) * 32, 32, RelocationTable(relocations, n - 1), RelocationBytes(relocations[n - 1]));
      RelocationRecord(b, o + (n - 1) * 32, relocations[n - 1], minor);
    }
  }

  /** The fixed part of a header, and its reserved bytes. */
  predicate HeaderOk(b: seq<byte>) {
    && |b| >= HEADER_SIZE
    && Field(b, 0, 4) == MAGIC && GetU16(b, 4) == VERSION_MAJOR && GetU16(b, 6) <= VERSION_MINOR && GetU16(b, 8) == HEADER_SIZE
    && GetU16(b, 10) == 0 && AllZero(Field(b, 40, 24))
  }

  /** Where the header says the tables are, and how long everything is. */
  predicate TablesOk(b: seq<byte>, commands: nat, resources: nat, relocations: nat)
    requires |b| >= HEADER_SIZE
  {
    && GetU32(b, 12) == HEADER_SIZE + commands * 4 + resources * 32 + relocations * 32
    && GetU32(b, 16) == HEADER_SIZE && GetU32(b, 20) == commands
    && GetU32(b, 24) == HEADER_SIZE + commands * 4 && GetU32(b, 28) == resources
    && GetU32(b, 32) == HEADER_SIZE + commands * 4 + resources * 32 && GetU32(b, 36) == relocations
  }

  lemma VersionIs(b: seq<byte>, minor: nat)
    requires |b| >= HEADER_SIZE && minor < 0x1_0000
    ensures Field(b, 0, 12) == VersionBytes(minor) <==>
            Field(b, 0, 4) == MAGIC && GetU16(b, 4) == VERSION_MAJOR && GetU16(b, 6) == minor && GetU16(b, 8) == HEADER_SIZE && GetU16(b, 10) == 0
  {
    hide Field, Bytes, Number;
    Widths();
    var x1, x2, x3, x4, x5 := MAGIC, Bytes(VERSION_MAJOR, 2), Bytes(minor, 2), Bytes(HEADER_SIZE, 2), Bytes(0, 2);
    Cut(b, 0, 10, 2, x1 + x2 + x3 + x4, x5);
    Cut(b, 0, 8, 2, x1 + x2 + x3, x4);
    Cut(b, 0, 6, 2, x1 + x2, x3);
    Cut(b, 0, 4, 2, x1, x2);
    FieldIs(b, 4, 2, VERSION_MAJOR);
    FieldIs(b, 6, 2, minor);
    FieldIs(b, 8, 2, HEADER_SIZE);
    FieldIs(b, 10, 2, 0);
  }

  lemma NextNumber(b: seq<byte>, n: nat, x: seq<byte>, v: u32)
    requires n + 4 <= |b| && |x| == n
    ensures Field(b, 0, n + 4) == x + Bytes(v, 4) <==> Field(b, 0, n) == x && GetU32(b, n) == v
  {
    Widths();
    Cut(b, 0, n, 4, x, Bytes(v, 4));
    FieldIs(b, n, 4, v);
    hide Field, Bytes, Number;
  }

  lemma TwoNumbers(b: seq<byte>, n: nat, x: seq<byte>, v: u32, w: u32)
    requires n + 8 <= |b| && |x| == n
    ensures Field(b, 0, n + 8) == x + Bytes(v, 4) + Bytes(w, 4) <==> Field(b, 0, n) == x && GetU32(b, n) == v && GetU32(b, n + 4) == w
  {
    hide Field, Bytes, Number, GetU32;
    NextNumber(b, n, x, v);
    NextNumber(b, n + 4, x + Bytes(v, 4), w);
  }

  lemma FourNumbers(b: seq<byte>, n: nat, x: seq<byte>, v1: u32, v2: u32, v3: u32, v4: u32)
    requires n + 16 <= |b| && |x| == n
    ensures Field(b, 0, n + 16) == x + Bytes(v1, 4) + Bytes(v2, 4) + Bytes(v3, 4) + Bytes(v4, 4) <==>
            Field(b, 0, n) == x && GetU32(b, n) == v1 && GetU32(b, n + 4) == v2 && GetU32(b, n + 8) == v3 && GetU32(b, n + 12) == v4
  {
    hide Field, Bytes, Number, GetU32;
    TwoNumbers(b, n, x, v1, v2);
    TwoNumbers(b, n + 8, x + Bytes(v1, 4) + Bytes(v2, 4), v3, v4);
  }

  lemma LastNumbers(b: seq<byte>, x: seq<byte>, v5: u32, v6: u32, v7: u32)
    requires |b| >= HEADER_SIZE && |x| == 28
    ensures Field(b, 0, 64) == x + Bytes(v5, 4) + Bytes(v6, 4) + Bytes(v7, 4) + Zeros(24) <==>
            Field(b, 0, 28) == x && GetU32(b, 28) == v5 && GetU32(b, 32) == v6 && GetU32(b, 36) == v7 && AllZero(Field(b, 40, 24))
  {
    hide Field, Bytes, Number, GetU32, AllZero, Zeros;
    TwoNumbers(b, 28, x, v5, v6);
    NextNumber(b, 36, x + Bytes(v5, 4) + Bytes(v6, 4), v7);
    Cut(b, 0, 40, 24, x + Bytes(v5, 4) + Bytes(v6, 4) + Bytes(v7, 4), Zeros(24));
    FieldSize(b, 40, 24);
    ZerosAre(Field(b, 40, 24));
  }

  lemma FieldSize(b: seq<byte>, o: nat, n: nat)
    requires o + n <= |b|
    ensures |Field(b, o, n)| == n
  {
  }

  lemma HeaderIs(b: seq<byte>, s: Submit, minor: nat)
    requires |b| >= HEADER_SIZE && minor <= VERSION_MINOR && CountsOk(|s.commands|, |s.resources|, |s.relocations|)
    ensures Field(b, 0, HEADER_SIZE) == HeaderBytes(s, minor) <==>
            HeaderOk(b) && GetU16(b, 6) == minor && TablesOk(b, |s.commands|, |s.resources|, |s.relocations|)
  {
    hide Field, Bytes, Number, AllZero, GetU16, GetU32, VersionBytes, Zeros;
    var c, r, l := |s.commands|, |s.resources|, |s.relocations|;
    VersionIs(b, minor);
    FourNumbers(b, 12, VersionBytes(minor), HEADER_SIZE + c * 4 + r * 32 + l * 32, HEADER_SIZE, c, HEADER_SIZE + c * 4);
    hide CountsOk;
    LastNumbers(b, HeaderStart(s, minor), r, HEADER_SIZE + c * 4 + r * 32, l);
  }

  lemma WholeField(b: seq<byte>)
    ensures Field(b, 0, |b|) == b
  {
  }

  /** All the tables of `b` hold what `s` holds. */
  ghost predicate Reads(b: seq<byte>, s: Submit, minor: nat) {
    var c, r, l := |s.commands|, |s.resources|, |s.relocations|;
    && |b| == HEADER_SIZE + c * 4 + r * 32 + l * 32
    && (forall i :: 0 <= i < c ==> GetU32(b, HEADER_SIZE + i * 4) == s.commands[i])
    && (forall i :: 0 <= i < r ==>
          ReadResource(b, HEADER_SIZE + c * 4 + i * 32) == s.resources[i] && GetU32(b, HEADER_SIZE + c * 4 + i * 32 + 28) == 0)
    && (forall i :: 0 <= i < l ==> ReadRelocation(b, HEADER_SIZE + c * 4 + r * 32 + i * 32, minor) == Some(s.relocations[i]))
  }

  ghost predicate AllCarried(s: Submit, minor: nat) {
    forall i :: 0 <= i < |s.relocations| ==> Carries(s.relocations[i], minor)
  }

  /** A payload is the encoding of a submission exactly when every field read from it
      is the submission's. */
  lemma EncodingIs(b: seq<byte>, s: Submit, minor: nat)
    requires minor <= VERSION_MINOR && CountsOk(|s.commands|, |s.resources|, |s.relocations|)
    ensures b == Encoding(s, minor) && AllCarried(s, minor) <==>
            HeaderOk(b) && GetU16(b, 6) == minor && TablesOk(b, |s.commands|, |s.resources|, |s.relocations|) && Reads(b, s, minor)
  {
    hide Field, GetU16, GetU32, ReadResource, ReadRelocation, HeaderOk, TablesOk, HeaderBytes, CommandTable, ResourceTable, RelocationTable, Carries, CountsOk;
    var c, r, l := |s.commands|, |s.resources|, |s.relocations|;
    var h, ct, rt, lt := HeaderBytes(s, minor), CommandTable(s.commands, c), ResourceTable(s.resources, r), RelocationTable(s.relocations, l);
    if |b| == HEADER_SIZE + c * 4 + r * 32 + l * 32 {
      HeaderIs(b, s, minor);
      CommandsAre(b, HEADER_SIZE, s.commands, c);
      ResourcesAre(b, HEADER_SIZE + c * 4, s.resources, r);
      RelocationsAre(b, HEADER_SIZE + c * 4 + r * 32, s.relocations, l, minor);
      Cut(b, 0, HEADER_SIZE + c * 4 + r * 32, l * 32, h + ct + rt, lt);
      Cut(b, 0, HEADER_SIZE + c * 4, r * 32, h + ct, rt);
      Cut(b, 0, HEADER_SIZE, c * 4, h, ct);
      WholeField(b);
    }
  }

  // ---------------------------------------------------------------------------
  // The decoder
  // ---------------------------------------------------------------------------

  /** The counts of the tables and the payload with its layout. */
  ghost predicate IsDecoded(b: seq<byte>, d: Decoded) {
    && d.bytes == b && CountsOk(d.commandsCount, d.resourceCount, d.relocationCount)
    && d.layout == Layout(|b|, HEADER_SIZE, HEADER_SIZE + d.commandsCount * 4, HEADER_SIZE + d.commandsCount * 4 + d.resourceCount * 32)
    && |b| == HEADER_SIZE + d.commandsCount * 4 + d.resourceCount * 32 + d.relocationCount * 32
  }

  /** What the decoder has checked when it accepts. */
  ghost predicate Checked(b: seq<byte>, d: Decoded) {
    && HeaderOk(b) && IsDecoded(b, d) && TablesOk(b, d.commandsCount, d.resourceCount, d.relocationCount)
    && ResourcesChecked(d, d.resourceCount) && RelocationsChecked(d, d.relocationCount)
  }

  ghost predicate ResourceChecked(d: Decoded, i: nat)
    requires d.Fits() && i < d.resourceCount
  {
    GetU32(d.bytes, d.layout.resourcesOffset + i * RESOURCE_SIZE + 28) == 0 && ResourceOk(d.ResourceAt(i).value)
  }

  ghost predicate ResourcesChecked(d: Decoded, n: nat) {
    d.Fits() && n <= d.resourceCount && forall i: nat :: i < n ==> ResourceChecked(d, i)
  }

  ghost predicate RelocationChecked(d: Decoded, i: nat)
    requires d.Fits()
  {
    && d.RelocationAt(i).Some? && (i > 0 ==> d.RelocationAt(i - 1).Some?)
    && CheckRelocation(d.RelocationAt(i).value, EndBefore(d, i), d.Commands(), d.Resources()).None?
  }

  ghost predicate RelocationsChecked(d: Decoded, n: nat) {
    d.Fits() && n <= d.relocationCount && forall i: nat :: i < n ==> RelocationChecked(d, i)
  }

  ghost function EndBefore(d: Decoded, i: nat): Option<nat>
    requires d.Fits() && (i > 0 ==> d.RelocationAt(i - 1).Some?)
  {
    if i == 0 then None else Some(d.RelocationAt(i - 1).value.wordOffset + ENCODING_WORDS)
  }

  method CheckHeader(b: seq<byte>) returns (d: Result<Decoded, Error>)
    ensures d.Ok? ==> HeaderOk(b) && IsDecoded(b, d.value) && TablesOk(b, d.value.commandsCount, d.value.resourceCount, d.value.relocationCount)
    ensures d.Ok? <==> |b| <= MAX_SUBMIT_SIZE && HeaderOk(b) && GetU32(b, 12) == |b| &&
                       CountsOk(GetU32(b, 20), GetU32(b, 28), GetU32(b, 36)) && TablesOk(b, GetU32(b, 20), GetU32(b, 28), GetU32(b, 36))
  {
    if |b| < HEADER_SIZE || |b| > MAX_SUBMIT_SIZE { return Err(InvalidSize); }
    hide GetU16, GetU32;
    if b[0..4] != MAGIC || GetU16(b, 4) != VERSION_MAJOR { return Err(UnsupportedVersion); }
    if GetU16(b, 6) > VERSION_MINOR || GetU16(b, 8) != HEADER_SIZE { return Err(UnsupportedVersion); }
    if GetU16(b, 10) != 0 || !AllZero(b[40..HEADER_SIZE]) { return Err(ReservedNotZero); }
    if GetU32(b, 12) != |b| { return Err(InvalidSize); }
    var commandsOffset, commandsCount := GetU32(b, 16), GetU32(b, 20);
    var resourcesOffset, resourceCount := GetU32(b, 24), GetU32(b, 28);
    var relocationsOffset, relocationCount := GetU32(b, 32), GetU32(b, 36);
    LayoutFits(commandsCount, resourceCount, relocationCount);
    var expected := GetLayout(commandsCount, resourceCount, relocationCount);
    if expected.Err? { return Err(expected.error); }
    if commandsOffset != expected.value.commandsOffset || resourcesOffset != expected.value.resourcesOffset
       || relocationsOffset != expected.value.relocationsOffset || expected.value.total != |b| {
      return Err(InvalidTable);
    }
    if !AllZero(b[expected.value.commandsOffset + commandsCount * 4..expected.value.resourcesOffset]) { return Err(ReservedNotZero); }
    return Ok(Decoded(b, expected.value, commandsCount, resourceCount, relocationCount));
  }

  method CheckResources(d: Decoded) returns (wrong: Option<Error>)
    requires d.Fits()
    ensures wrong.None? <==> ResourcesChecked(d, d.resourceCount)
  {
    hide GetU32, ResourceOk, ReadResource;
    for i := 0 to d.resourceCount
      invariant ResourcesChecked(d, i)
    {
      ghost var ok := ResourceChecked(d, i);
      if GetU32(d.bytes, d.layout.resourcesOffset + i * RESOURCE_SIZE + 28) != 0 { return Some(ReservedNotZero); }
      if !ResourceOk(d.ResourceAt(i).value) { return Some(InvalidField); }
    }
    return None;
  }

  method CheckOne(d: Decoded, i: nat, previousEnd: Option<nat>) returns (wrong: Option<Error>)
    requires d.Fits() && i < d.relocationCount && (i > 0 ==> d.RelocationAt(i - 1).Some?) && previousEnd == EndBefore(d, i)
    ensures wrong.None? <==> RelocationChecked(d, i)
  {
    hide CheckRelocation, ReadRelocation, ReadResource, GetU32;
    var relocation := d.RelocationAt(i);
    if relocation.None? { return Some(InvalidField); }
    wrong := CheckRelocation(relocation.value, previousEnd, d.Commands(), d.Resources());
  }

  lemma CheckedHere(d: Decoded, i: nat)
    requires d.Fits() && RelocationChecked(d, i)
    ensures d.RelocationAt(i).Some? && EndBefore(d, i + 1) == Some(d.RelocationAt(i).value.wordOffset + ENCODING_WORDS)
  {
  }

  method CheckRelocations(d: Decoded) returns (wrong: Option<Error>)
    requires d.Fits()
    ensures wrong.None? <==> RelocationsChecked(d, d.relocationCount)
  {
    var previousEnd: Option<nat> := None;
    hide RelocationChecked, CheckRelocation, ReadRelocation, ReadResource, GetU32;
    for i := 0 to d.relocationCount
      invariant RelocationsChecked(d, i) && (i > 0 ==> d.RelocationAt(i - 1).Some?) && previousEnd == EndBefore(d, i)
    {
      wrong := CheckOne(d, i, previousEnd);
      if wrong.Some? { return; }
      CheckedHere(d, i);
      previousEnd := Some(d.RelocationAt(i).value.wordOffset + ENCODING_WORDS);
    }
    return None;
  }

  lemma CheckedSize(b: seq<byte>, d: Decoded)
    requires Checked(b, d)
    ensures |b| <= MAX_SUBMIT_SIZE && GetU32(b, 12) == |b|
    ensures d == Decoded(b, d.layout, GetU32(b, 20), GetU32(b, 28), GetU32(b, 36))
  {
  }

  /** The payload is the encoding of an authorized submission, in a minor version that
      can carry it. */
  ghost predicate Carried(b: seq<byte>, s: Submit, minor: nat) {
    minor <= 1 && Authorized(s) && AllCarried(s, minor) && b == Encoding(s, minor)
  }

  /** Passing the checks is being such an encoding. */
  lemma CheckedIsCarried(b: seq<byte>)
    ensures (exists d :: Checked(b, d)) <==> exists s, minor: nat :: Carried(b, s, minor)
  {
    hide Checked, Encoding, Authorized, Valid, AllCarried, GetU16;
    if d :| Checked(b, d) {
      CheckedFits(b, d);
      AcceptedIsEncoding(b, d);
      ValidMeans(d.Contents());
      assert Carried(b, d.Contents(), GetU16(b, 6));
    }
    if s, minor: nat :| Carried(b, s, minor) {
      ValidMeans(s);
      EncodingIsAccepted(s, minor);
      assert Checked(b, DecodedOf(b, s));
    }
  }

  /** `decode` accepts exactly the payloads that pass all checks, which are exactly the
      encodings of authorized submissions. */
  method Decode(b: seq<byte>) returns (r: Result<Decoded, Error>)
    ensures r.Ok? ==> Checked(b, r.value)
    ensures (exists d :: Checked(b, d)) ==> r.Ok?
    ensures r.Ok? <==> exists s, minor: nat :: Carried(b, s, minor)
    ensures r.Ok? ==> r.value.Fits() && r.value.AllRelocations() && Carried(b, r.value.Contents(), GetU16(b, 6))
  {
    CheckedIsCarried(b);
    r := DecodeChecked(b);
    if r.Ok? {
      hide Checked, Valid, Encoding, Authorized, AllCarried, GetU16;
      AcceptedIsEncoding(b, r.value);
      ValidMeans(r.value.Contents());
      CheckedFits(b, r.value);
    }
  }

  lemma CheckedFits(b: seq<byte>, d: Decoded)
    requires Checked(b, d)
    ensures |b| >= HEADER_SIZE && d.Fits()
  {
  }

  method DecodeChecked(b: seq<byte>) returns (r: Result<Decoded, Error>)
    ensures r.Ok? ==> Checked(b, r.value)
    ensures (exists d :: Checked(b, d)) ==> r.Ok?
  {
    var header := CheckHeader(b);
    forall d | Checked(b, d)
      ensures header.Ok? && header.value == d
    {
      CheckedSize(b, d);
    }
    hide HeaderOk, TablesOk, ResourcesChecked, RelocationsChecked, CountsOk;
    if header.Err? { return Err(header.error); }
    var wrong := CheckResources(header.value);
    if wrong.Some? { return Err(wrong.value); }
    wrong := CheckRelocations(header.value);
    if wrong.Some? { return Err(wrong.value); }
    return Ok(header.value);
  }

  // ---------------------------------------------------------------------------
  // Round trips
  // ---------------------------------------------------------------------------

  lemma CheckedRelocations(b: seq<byte>, d: Decoded)
    requires Checked(b, d)
    ensures d.AllRelocations()
    ensures forall i: nat :: i < d.relocationCount ==>
              CheckRelocation(d.RelocationAt(i).value, PreviousEnd(d.Relocations(), i), d.Commands(), d.Resources()).None?
  {
    hide HeaderOk, TablesOk, CheckRelocation, ReadRelocation, ReadResource, GetU32, GetU16, CountsOk;
    forall i: nat | i < d.relocationCount
      ensures d.RelocationAt(i).Some?
    {
      assert RelocationChecked(d, i);
    }
    forall i: nat | i < d.relocationCount
      ensures CheckRelocation(d.RelocationAt(i).value, PreviousEnd(d.Relocations(), i), d.Commands(), d.Resources()).None?
    {
      assert RelocationChecked(d, i);
      assert EndBefore(d, i) == PreviousEnd(d.Relocations(), i);
    }
  }

  lemma CheckedResources(b: seq<byte>, d: Decoded)
    requires Checked(b, d)
    ensures forall i: nat :: i < d.resourceCount ==>
              ResourceOk(d.Resources()[i]) && d.Resources()[i] == ReadResource(b, HEADER_SIZE + d.commandsCount * 4 + i * 32)
              && GetU32(b, HEADER_SIZE + d.commandsCount * 4 + i * 32 + 28) == 0
  {
    hide HeaderOk, TablesOk, CheckRelocation, ReadRelocation, ReadResource, GetU32, GetU16, ResourceOk, CountsOk, RelocationsChecked;
    forall i: nat | i < d.resourceCount
      ensures ResourceOk(d.Resources()[i]) && d.Resources()[i] == ReadResource(b, HEADER_SIZE + d.commandsCount * 4 + i * 32)
      ensures GetU32(b, HEADER_SIZE + d.commandsCount * 4 + i * 32 + 28) == 0
    {
      assert ResourceChecked(d, i);
    }
  }

  lemma ContentsReads(b: seq<byte>, d: Decoded)
    requires IsDecoded(b, d) && d.Fits() && d.AllRelocations() && |b| >= 8
    requires forall i: nat :: i < d.resourceCount ==> GetU32(b, HEADER_SIZE + d.commandsCount * 4 + i * 32 + 28) == 0
    ensures Reads(b, d.Contents(), GetU16(b, 6))
  {
    hide ReadRelocation, ReadResource, GetU32, GetU16, CountsOk;
    var s := d.Contents();
    assert |s.commands| == d.commandsCount && |s.resources| == d.resourceCount && |s.relocations| == d.relocationCount;
    forall i: nat | i < d.relocationCount
      ensures ReadRelocation(b, HEADER_SIZE + d.commandsCount * 4 + d.resourceCount * 32 + i * 32, GetU16(b, 6)) == Some(s.relocations[i])
    {
      assert d.RelocationAt(i).Some?;
    }
  }

  lemma CheckedReads(b: seq<byte>, d: Decoded)
    requires Checked(b, d) && d.AllRelocations()
    ensures Reads(b, d.Contents(), GetU16(b, 6))
  {
    hide HeaderOk, TablesOk, Reads, CountsOk, GetU32, GetU16, ReadResource, ReadRelocation, ResourceOk, RelocationsChecked, Decoded.AllRelocations;
    CheckedResources(b, d);
    hide ResourcesChecked;
    ContentsReads(b, d);
  }

  lemma CheckedValid(b: seq<byte>, d: Decoded)
    requires Checked(b, d)
    ensures d.AllRelocations() && Valid(d.Contents()) && Reads(b, d.Contents(), GetU16(b, 6))
  {
    CheckedRelocations(b, d);
    CheckedResources(b, d);
    CheckedReads(b, d);
    hide HeaderOk, TablesOk, CheckRelocation, ReadRelocation, ReadResource, GetU32, GetU16, ResourceOk, CountsOk, RelocationsChecked, ResourcesChecked, Reads;
  }

  /** Whatever is accepted is the encoding of the valid submission it carries: no two
      different payloads of one minor version carry the same submission. */
  lemma AcceptedIsEncoding(b: seq<byte>, d: Decoded)
    requires Checked(b, d)
    ensures d.AllRelocations() && Valid(d.Contents())
    ensures GetU16(b, 6) <= VERSION_MINOR && b == Encoding(d.Contents(), GetU16(b, 6)) && AllCarried(d.Contents(), GetU16(b, 6))
  {
    CheckedValid(b, d);
    hide Reads, Encoding, ResourcesChecked, RelocationsChecked, GetU32;
    EncodingIs(b, d.Contents(), GetU16(b, 6));
  }

  function DecodedOf(b: seq<byte>, s: Submit): Decoded {
    var c, r, l := |s.commands|, |s.resources|, |s.relocations|;
    Decoded(b, Layout(|b|, HEADER_SIZE, HEADER_SIZE + c * 4, HEADER_SIZE + c * 4 + r * 32), c, r, l)
  }

  lemma ReadsBack(b: seq<byte>, s: Submit, minor: nat)
    requires Reads(b, s, minor) && CountsOk(|s.commands|, |s.resources|, |s.relocations|) && |b| >= 8 && GetU16(b, 6) == minor
    ensures var d := DecodedOf(b, s);
            && IsDecoded(b, d) && d.Fits() && d.AllRelocations() && d.Contents() == s
            && forall i: nat :: i < |s.resources| ==> d.ResourceAt(i) == Some(s.resources[i])
  {
    hide ReadRelocation, ReadResource, GetU32, GetU16, CountsOk;
    var d := DecodedOf(b, s);
    forall i: nat | i < |s.relocations|
      ensures d.RelocationAt(i) == Some(s.relocations[i])
    {
    }
    assert d.Commands() == s.commands && d.Resources() == s.resources;
    assert d.Relocations() == s.relocations;
  }

  lemma ResourcesBack(b: seq<byte>, s: Submit, minor: nat)
    requires Reads(b, s, minor) && Valid(s) && |b| >= 8 && GetU16(b, 6) == minor
    ensures ResourcesChecked(DecodedOf(b, s), |s.resources|)
  {
    ReadsBack(b, s, minor);
    hide ReadRelocation, ReadResource, GetU32, GetU16, CountsOk, ResourceOk, RelocationsOk;
    var d := DecodedOf(b, s);
    forall i: nat | i < |s.resources|
      ensures ResourceChecked(d, i)
    {
    }
  }

  lemma RelocationBack(d: Decoded, s: Submit, i: nat)
    requires d.Fits() && d.AllRelocations() && d.Contents() == s && i < |s.relocations| && RelocationsOk(s, |s.relocations|)
    ensures RelocationChecked(d, i)
  {
    hide ReadRelocation, ReadResource, GetU32, GetU16, CheckRelocation;
    assert d.RelocationAt(i).Some? && d.RelocationAt(i).value == d.Relocations()[i];
    if i > 0 { assert d.RelocationAt(i - 1).Some? && d.RelocationAt(i - 1).value == d.Relocations()[i - 1]; }
    assert EndBefore(d, i) == PreviousEnd(s.relocations, i);
  }

  lemma ChecksBack(b: seq<byte>, s: Submit, minor: nat)
    requires Reads(b, s, minor) && Valid(s) && |b| >= 8 && GetU16(b, 6) == minor
    ensures ResourcesChecked(DecodedOf(b, s), |s.resources|) && RelocationsChecked(DecodedOf(b, s), |s.relocations|)
  {
    ResourcesBack(b, s, minor);
    hide Reads, RelocationsOk, RelocationChecked, ResourcesChecked, Decoded.AllRelocations, Decoded.Contents, GetU16, CountsOk, ResourceOk;
    ReadsBack(b, s, minor);
    forall i: nat | i < |s.relocations|
      ensures RelocationChecked(DecodedOf(b, s), i)
    {
      RelocationBack(DecodedOf(b, s), s, i);
    }
  }

  /** The encoding of a valid submission is accepted, and carries that submission back,
      field for field. */
  lemma EncodingIsAccepted(s: Submit, minor: nat)
    requires Valid(s) && minor <= VERSION_MINOR && AllCarried(s, minor)
    ensures var b := Encoding(s, minor);
            var d := DecodedOf(b, s);
            Checked(b, d) && d.AllRelocations() && d.Contents() == s
  {
    var b := Encoding(s, minor);
    hide Encoding, Reads, GetU32, ResourceOk, RelocationsOk, ResourcesChecked, RelocationsChecked, AllCarried;
    EncodingIs(b, s, minor);
    ReadsBack(b, s, minor);
    ChecksBack(b, s, minor);
  }

  lemma OneDecoding(b: seq<byte>, d: Decoded, e: Decoded)
    requires Checked(b, d) && Checked(b, e)
    ensures d == e
  {
    CheckedSize(b, d);
    CheckedSize(b, e);
  }

  /** What is encoded is decoded back. */
  method EncodeDecode(s: Submit, output: array<byte>) returns (r: Result<Decoded, Error>)
    requires Valid(s) && output.Length == |Encoding(s, VERSION_MINOR)|
    modifies output
    ensures r.Ok? && r.value.Fits() && r.value.AllRelocations() && r.value.Contents() == s
  {
    hide Valid, Encoding, Checked;
    var written := Encode(s, output);
    AllCarriedNow(s);
    EncodingIsAccepted(s, VERSION_MINOR);
    r := Decode(output[..]);
    OneDecoding(output[..], r.value, DecodedOf(Encoding(s, VERSION_MINOR), s));
  }

  lemma AllCarriedNow(s: Submit)
    ensures AllCarried(s, VERSION_MINOR)
  {
  }

  /** Re-encoding what was accepted gives the very same bytes, if the payload was
      minor 1; from a minor-0 payload it gives the same bytes but for the minor. */
  lemma ReencodesSame(b: seq<byte>, d: Decoded)
    requires Checked(b, d)
    ensures d.AllRelocations()
    ensures GetU16(b, 6) == 1 ==> Encoding(d.Contents(), VERSION_MINOR) == b
    ensures GetU16(b, 6) == 0 ==> Encoding(d.Contents(), VERSION_MINOR) == b[6 := 1] && forall i :: 0 <= i < |d.Contents().relocations| ==>
                                    d.Contents().relocations[i].source.Attachment?
  {
    AcceptedIsEncoding(b, d);
    if GetU16(b, 6) == 0 {
      hide Checked, Valid, GetU16;
      MinorByte(d.Contents());
    }
  }

  lemma MinorByte(s: Submit)
    ensures Encoding(s, 1) == Encoding(s, 0)[6 := 1]
  {
    MinorVersion();
    MinorHeader(s);
    hide HeaderBytes, CommandTable, ResourceTable, RelocationTable;
    var x, y := HeaderBytes(s, 0), HeaderBytes(s, 1);
    var c, r, l := CommandTable(s.commands, |s.commands|), ResourceTable(s.resources, |s.resources|), RelocationTable(s.relocations, |s.relocations|);
    Prefix(x, y, c);
    Prefix(x + c, y + c, r);
    Prefix(x + c + r, y + c + r, l);
  }

  lemma MinorVersion()
    ensures VersionBytes(1) == VersionBytes(0)[6 := 1]
  {
    assert Bytes(0, 2) == [0, 0] && Bytes(1, 2) == [1, 0] by { assert Bytes(0, 0) == []; assert Bytes(0, 1) == [0]; }
    assert |Bytes(VERSION_MAJOR, 2)| == 2;
  }

  lemma MinorHeader(s: Submit)
    requires VersionBytes(1) == VersionBytes(0)[6 := 1]
    ensures HeaderBytes(s, 1) == HeaderBytes(s, 0)[6 := 1]
  {
    MinorStart(s);
    hide HeaderStart, Bytes, Zeros;
    var x, y := HeaderStart(s, 0), HeaderStart(s, 1);
    var a, b, c := Bytes(|s.resources|, 4), Bytes(HEADER_SIZE + |s.commands| * 4 + |s.resources| * 32, 4), Bytes(|s.relocations|, 4);
    Prefix(x, y, a);
    Prefix(x + a, y + a, b);
    Prefix(x + a + b, y + a + b, c);
    Prefix(x + a + b + c, y + a + b + c, Zeros(24));
  }

  lemma MinorStart(s: Submit)
    requires VersionBytes(1) == VersionBytes(0)[6 := 1]
    ensures HeaderStart(s, 1) == HeaderStart(s, 0)[6 := 1]
  {
    hide VersionBytes, Bytes;
    var x, y := VersionBytes(0), VersionBytes(1);
    var a := Bytes(HEADER_SIZE + |s.commands| * 4 + |s.resources| * 32 + |s.relocations| * 32, 4);
    var b, c, d := Bytes(HEADER_SIZE, 4), Bytes(|s.commands|, 4), Bytes(HEADER_SIZE + |s.commands| * 4, 4);
    Prefix(x, y, a);
    Prefix(x + a, y + a, b);
    Prefix(x + a + b, y + a + b, c);
    Prefix(x + a + b + c, y + a + b + c, d);
  }

  lemma Prefix(x: seq<byte>, y: seq<byte>, z: seq<byte>)
    requires |x| > 6 && y == x[6 := 1]
    ensures y + z == (x + z)[6 := 1]
  {
  }
}
