/** `maxwell-image-layout/src/lib.rs`: where the bytes of an image live. */
module ImageLayout {
  import opened Wrappers
  import opened Powers

  const MAX_DIMENSION := 16384
  const MAX_MIP_LEVELS := 15
  const MAX_ARRAY_LAYERS := 2048
  const U32 := 0x1_0000_0000
  const U64 := 0x1_0000_0000_0000_0000

  datatype Error = InvalidDescriptor | Overflow | OutOfBounds | LayoutMismatch

  datatype LayoutKind = Linear | BlockLinear(baseYLog2: nat, clampMips: bool)

  datatype Descriptor = Descriptor(width: nat, height: nat, mipLevels: nat, arrayLayers: nat, bytesPerPixel: nat)

  datatype Level = Level(offset: nat, size: nat, width: nat, height: nat, rowPitch: nat, tileYLog2: nat)

  datatype Layout = Layout(descriptor: Descriptor, kind: LayoutKind, levels: seq<Level>,
                           arrayPitch: nat, totalSize: nat)

  datatype Subresource = Subresource(offset: nat, level: Level, layer: nat, mipLevel: nat)

  datatype Transfer = Transfer(offset: nat, rowPitch: nat, arrayPitch: nat, x: nat, y: nat, width: nat, height: nat)

  // ---------------------------------------------------------------------------
  // Checked 64-bit arithmetic
  // ---------------------------------------------------------------------------

  function CheckedAdd(a: nat, b: nat): Result<nat, Error> {
    if a + b < U64 then Ok(a + b) else Err(Overflow)
  }

  function Times(a: nat, b: nat): nat {
    a * b
  }

  function CheckedMul(a: nat, b: nat): Result<nat, Error> {
    if Times(a, b) < U64 then Ok(Times(a, b)) else Err(Overflow)
  }

  /** `align`: add, and clear the low bits. */
  function Align(value: nat, alignment: nat): Result<nat, Error>
    requires alignment > 0
  {
    if value + (alignment - 1) < U64 then Ok(AndNot(value + (alignment - 1), alignment - 1)) else Err(Overflow)
  }

  /** For a power of two that is rounding up. */
  lemma AlignRounds(value: nat, alignment: nat, e: nat)
    requires alignment == Pow2(e) && value + alignment <= U64
    ensures Align(value, alignment).Ok? && RoundedUp(value, alignment, Align(value, alignment).value)
  {
    AndNotLow(value + (alignment - 1), e);
    RoundUp(value, alignment);
  }

  function Max(a: nat, b: nat): nat {
    if a > b then a else b
  }

  function Min(a: nat, b: nat): nat {
    if a < b then a else b
  }

  function DivCeil(a: nat, b: nat): nat
    requires b > 0
  {
    (a + (b - 1)) / b
  }

  function TileYLog2(height: nat, maximum: nat): nat {
    var gobs := Max(DivCeil(height, 8), 1);
    Min(maximum, BitLength(gobs - 1))
  }

  /** The block height is the least that covers the rows, unless capped. */
  lemma TileYLeastAdequate(height: nat, maximum: nat, e: nat)
    ensures var y := TileYLog2(height, maximum);
            && y <= maximum
            && (y < maximum ==> height <= 8 * Pow2(y))
            && (height <= 8 * Pow2(e) ==> y <= e)
  {
    var gobs := Max(DivCeil(height, 8), 1);
    BitLengthLeast(gobs - 1, e);
    BitLengthLeast(gobs - 1, BitLength(gobs - 1));
  }

  // ---------------------------------------------------------------------------
  // Planning
  // ---------------------------------------------------------------------------

  ghost predicate Admitted(d: Descriptor, kind: LayoutKind) {
    && 0 < d.width <= 16384 && 0 < d.height <= 16384
    && 0 < d.arrayLayers <= 2048
    && d.bytesPerPixel in {1, 2, 4}
    && 0 < d.mipLevels <= BitLength(Max(d.width, d.height)) && d.mipLevels <= 15
    && (kind.BlockLinear? ==> kind.baseYLog2 <= 4)
    && (kind.Linear? || !kind.clampMips ==> d.mipLevels == 1 && d.arrayLayers == 1)
  }

  function Extent(size: nat, mip: nat): nat {
    var halved := size / Pow2(mip);
    if halved > 1 then halved else 1
  }

  /** Each level is half the one before, rounded down, until one is left. */
  lemma ExtentHalves(size: nat, mip: nat)
    requires size > 0
    ensures Extent(size, 0) == size
    ensures Extent(size, mip + 1) == if Extent(size, mip) > 1 then Extent(size, mip) / 2 else 1
  {
    assert Pow2(mip + 1) == 2 * Pow2(mip);
    DivDiv(size, Pow2(mip), 2);
  }

  /** The admitted levels are those up to the first of one texel. */
  lemma LastLevel(width: nat, height: nat, mips: nat)
    requires width > 0 && height > 0 && mips > 1
    ensures mips <= BitLength(Max(width, height)) <==> Extent(width, mips - 2) > 1 || Extent(height, mips - 2) > 1
  {
    BitLengthLeast(Max(width, height), mips - 1);
    assert Pow2(mips - 1) == 2 * Pow2(mips - 2);
    AtLeastTwo(width, Pow2(mips - 2));
    AtLeastTwo(height, Pow2(mips - 2));
  }

  lemma AtLeastTwo(size: nat, z: nat)
    requires z > 0
    ensures size / z > 1 <==> size >= 2 * z
  {
    var q := size / z;
    assert size == q * z + size % z;
    AtLeastOne(q - 1, z);
    AtLeastOne(q - 2, z);
    assert (q - 1) * z == q * z - z && (q - 2) * z == q * z - 2 * z;
  }

  function PitchAlignment(kind: LayoutKind): nat {
    if kind.Linear? then 256 else 64
  }

  function TileY(kind: LayoutKind, height: nat): nat {
    match kind
    case Linear => 0
    case BlockLinear(base, clamp) => if clamp then TileYLog2(height, base) else base
  }

  /** Block-linear images have blocks of the base height, cut down for the smaller
      levels to the least that covers them. */
  lemma TileYIs(kind: LayoutKind, height: nat, e: nat)
    ensures var y := TileY(kind, height);
            match kind
            case Linear => y == 0
            case BlockLinear(base, clamp) =>
              && y <= base && (y < base ==> clamp && height <= 8 * Pow2(y))
              && (clamp && height <= 8 * Pow2(e) ==> y <= e)
  {
    if kind.BlockLinear? { TileYLeastAdequate(height, kind.baseYLog2, e); }
  }

  /** A level as the hardware addresses it: the least pitch and height that hold
      its rows in whole alignment units and tiles. */
  ghost predicate IsLevel(d: Descriptor, kind: LayoutKind, mip: nat, l: Level) {
    && l.width == Extent(d.width, mip) && l.height == Extent(d.height, mip)
    && l.tileYLog2 == TileY(kind, l.height)
    && RoundedUp(Times(l.width, d.bytesPerPixel), if kind.Linear? then 256 else 64, l.rowPitch)
    && l.rowPitch < U32
    && exists rows: nat :: IsRows(kind, l.height, l.tileYLog2, rows) && l.size == Times(l.rowPitch, rows)
  }

  ghost predicate IsRows(kind: LayoutKind, height: nat, y: nat, rows: nat) {
    if kind.Linear? then rows == height else RoundedUp(height, 8 * Pow2(y), rows)
  }

  /** The levels lie end to end from `0` to `end`. */
  ghost predicate Packed(levels: seq<Level>, mips: nat, end: nat)
    requires mips <= |levels|
  {
    if mips == 0 then end == 0
    else Packed(levels, mips - 1, levels[mips - 1].offset) && end == levels[mips - 1].offset + levels[mips - 1].size
  }

  ghost predicate IsLayout(l: Layout) {
    && Admitted(l.descriptor, l.kind) && |l.levels| == MAX_MIP_LEVELS
    && (forall m :: 0 <= m < l.descriptor.mipLevels ==> IsLevel(l.descriptor, l.kind, m, l.levels[m]))
    && (exists end: nat :: Packed(l.levels, l.descriptor.mipLevels, end) &&
          if l.descriptor.arrayLayers > 1 then RoundedUp(end, 512 * Pow2(l.levels[0].tileYLog2), l.arrayPitch)
          else l.arrayPitch == end)
    && l.arrayPitch < U32
    && l.totalSize == Times(l.arrayPitch, l.descriptor.arrayLayers)
  }

  // The bounds that keep every size representable.

  lemma ExtentBound(size: nat, mip: nat)
    requires 0 < size <= MAX_DIMENSION && mip < MAX_MIP_LEVELS
    ensures Pow2(14) == 16384 && Pow2(14) == Pow2(14 - mip) * Pow2(mip)
    ensures 1 <= Extent(size, mip) <= Pow2(14 - mip)
  {
    assert Pow2(5) == 32 && Pow2(10) == 1024;
    Pow2Add(10, 4);
    Pow2Add(14 - mip, mip);
    Pow2Monotone(0, 14 - mip);
    var q := size / Pow2(mip);
    assert size == q * Pow2(mip) + size % Pow2(mip);
    Distribute(q, Pow2(14 - mip), Pow2(mip));
    AtLeastOne(q - Pow2(14 - mip), Pow2(mip));
  }

  /** The clamped tile height divides the halved maximum, so a level's rows never
      round up past it. */
  lemma RowsBound(kind: LayoutKind, height: nat, mip: nat, rows: nat)
    requires kind.BlockLinear? && kind.baseYLog2 <= 4 && mip < MAX_MIP_LEVELS
    requires 0 < height <= Pow2(14 - mip)
    requires kind.clampMips || mip == 0
    requires RoundedUp(height, 8 * Pow2(TileY(kind, height)), rows)
    ensures rows <= Pow2(14 - mip) + 8
  {
    var y := TileY(kind, height);
    if mip <= 11 {
      Pow2Add(3, 11 - mip);
      assert Pow2(3) == 8;
      assert Pow2(14 - mip) == 8 * Pow2(11 - mip);
      if kind.clampMips { TileYLeastAdequate(height, kind.baseYLog2, 11 - mip); }
      assert y <= 11 - mip;
      Pow2Add(11 - mip - y, y);
      TileDivides(Pow2(11 - mip - y), Pow2(y));
      RoundedUpLeast(height, 8 * Pow2(y), rows, Pow2(14 - mip));
    } else {
      assert Pow2(1) == 2 && Pow2(2) == 4;
      Pow2Monotone(14 - mip, 2);
      TileYLeastAdequate(height, kind.baseYLog2, 0);
      assert y == 0 && Pow2(0) == 1;
    }
  }

  lemma TileDivides(k: nat, t: nat)
    requires t > 0
    ensures 8 * (k * t) % (8 * t) == 0
  {
    assert 8 * (k * t) == k * (8 * t);
    MultipleMod(k, 8 * t);
  }

  lemma RowBytes(width: nat, bpp: nat)
    requires width <= MAX_DIMENSION && bpp in {1, 2, 4}
    ensures Times(width, bpp) <= 65536
  {
  }

  lemma PitchBound(width: nat, bpp: nat, kind: LayoutKind, pitch: nat)
    requires 0 < width <= MAX_DIMENSION && bpp in {1, 2, 4}
    requires RoundedUp(Times(width, bpp), PitchAlignment(kind), pitch)
    ensures 0 < pitch <= 65536
  {
    RowBytes(width, bpp);
    RoundedUpLeast(Times(width, bpp), PitchAlignment(kind), pitch, 65536);
  }

  /** An upper bound on the bytes of the first `mips` levels: rows halve. */
  function CursorBound(mips: nat): int
    requires mips <= MAX_MIP_LEVELS
  {
    65536 * (32768 - Pow2(15 - mips) + 8 * mips)
  }

  lemma CursorStep(mips: nat, cursor: int, pitch: nat, rows: nat)
    requires mips < MAX_MIP_LEVELS && cursor <= CursorBound(mips)
    requires pitch <= 65536 && rows <= Pow2(14 - mips) + 8
    ensures pitch * rows <= 65536 * (Pow2(14 - mips) + 8)
    ensures cursor + pitch * rows <= CursorBound(mips + 1)
  {
    MulMonotone(pitch, 65536, rows, Pow2(14 - mips) + 8);
    assert Pow2(15 - mips) == 2 * Pow2(14 - mips);
  }

  lemma MulMonotone(a: nat, b: nat, c: nat, d: nat)
    requires a <= b && c <= d
    ensures a * c <= b * d
  {
    assert a * c <= b * c;
    assert b * c <= b * d;
  }

  lemma CursorFits(mips: nat)
    requires mips <= MAX_MIP_LEVELS
    ensures CursorBound(mips) + 8192 < U32
    ensures CursorBound(0) == 0
  {
    assert Pow2(5) == 32 && Pow2(10) == 1024;
    Pow2Add(10, 5);
  }

  /** `storage_height`: whole tiles of rows, or the rows themselves. */
  function StorageRows(kind: LayoutKind, height: nat): Result<nat, Error> {
    if kind.Linear? then Ok(height) else Align(height, 8 * Pow2(TileY(kind, height)))
  }

  lemma StorageRowsFit(d: Descriptor, kind: LayoutKind, mip: nat)
    requires Admitted(d, kind) && mip < d.mipLevels
    ensures var height := Extent(d.height, mip); var rows := StorageRows(kind, height);
            && rows.Ok? && 0 < height <= rows.value <= Pow2(14 - mip) + 8
            && IsRows(kind, height, TileY(kind, height), rows.value)
            && TileY(kind, height) <= 4
  {
    ExtentBound(d.height, mip);
    Pow2Monotone(14 - mip, 14);
    if kind.BlockLinear? {
      var height := Extent(d.height, mip);
      var y := TileY(kind, height);
      Pow2Monotone(y, 4);
      assert Pow2(4) == 16;
      assert Pow2(y + 3) == 8 * Pow2(y) by { Pow2Add(y, 3); assert Pow2(3) == 8; }
      AlignRounds(height, 8 * Pow2(y), y + 3);
      RowsBound(kind, height, mip, Align(height, 8 * Pow2(y)).value);
    }
  }

  lemma PitchFits(d: Descriptor, kind: LayoutKind, mip: nat)
    requires Admitted(d, kind) && mip < d.mipLevels
    ensures var width := Extent(d.width, mip); var pitch := Align(Times(width, d.bytesPerPixel), PitchAlignment(kind));
            && pitch.Ok? && 0 < pitch.value <= 65536
            && RoundedUp(Times(width, d.bytesPerPixel), PitchAlignment(kind), pitch.value)
  {
    ExtentBound(d.width, mip);
    Pow2Monotone(14 - mip, 14);
    var width := Extent(d.width, mip);
    RowBytes(width, d.bytesPerPixel);
    assert Pow2(8) == 256 && Pow2(6) == 64;
    AlignRounds(Times(width, d.bytesPerPixel), PitchAlignment(kind), if kind.Linear? then 8 else 6);
    PitchBound(width, d.bytesPerPixel, kind, Align(Times(width, d.bytesPerPixel), PitchAlignment(kind)).value);
  }

  /** No check in the planning of a level fails, and the result is the level. */
  lemma LevelFits(d: Descriptor, kind: LayoutKind, mip: nat, cursor: nat)
    requires Admitted(d, kind) && mip < d.mipLevels && cursor <= CursorBound(mip)
    ensures var width, height := Extent(d.width, mip), Extent(d.height, mip);
            var pitch := Align(Times(width, d.bytesPerPixel), PitchAlignment(kind));
            var rows := StorageRows(kind, height);
            && pitch.Ok? && pitch.value < U32 && rows.Ok?
            && CheckedMul(pitch.value, rows.value).Ok?
            && cursor + Times(pitch.value, rows.value) <= CursorBound(mip + 1)
            && IsLevel(d, kind, mip, Level(cursor, Times(pitch.value, rows.value), width, height, pitch.value, TileY(kind, height)))
  {
    var width, height := Extent(d.width, mip), Extent(d.height, mip);
    PitchFits(d, kind, mip);
    StorageRowsFit(d, kind, mip);
    var pitch := Align(Times(width, d.bytesPerPixel), PitchAlignment(kind)).value;
    var rows := StorageRows(kind, height).value;
    CursorStep(mip, cursor, pitch, rows);
    CursorFits(mip + 1);
    assert IsRows(kind, height, TileY(kind, height), rows);
  }

  /** One level of the loop in `plan`, with the source's checks in its order. */
  method PlanLevel(d: Descriptor, kind: LayoutKind, mip: nat, cursor: nat) returns (r: Result<Level, Error>)
    requires Admitted(d, kind) && mip < d.mipLevels && cursor <= CursorBound(mip)
    ensures r.Ok?
    ensures IsLevel(d, kind, mip, r.value) && r.value.offset == cursor
    ensures cursor + r.value.size <= CursorBound(mip + 1)
  {
    LevelFits(d, kind, mip, cursor);
    var width := Extent(d.width, mip);
    var height := Extent(d.height, mip);
    var y := TileY(kind, height);
    var pitch := Align(Times(width, d.bytesPerPixel), PitchAlignment(kind));
    if pitch.Err? { return Err(Overflow); }
    var rows := StorageRows(kind, height);
    if rows.Err? { return Err(Overflow); }
    var size := CheckedMul(pitch.value, rows.value);
    if size.Err? { return Err(Overflow); }
    if pitch.value >= U32 { return Err(Overflow); }
    r := Ok(Level(cursor, size.value, width, height, pitch.value, y));
  }

  /** The stride of a layer whose levels end at `cursor`. */
  method PlanPitch(d: Descriptor, kind: LayoutKind, cursor: nat, y: nat) returns (r: Result<nat, Error>)
    requires Admitted(d, kind) && y <= 4 && cursor + 8192 < U32 && (d.arrayLayers > 1 ==> kind.BlockLinear?)
    ensures r.Ok? && r.value < U32
    ensures if d.arrayLayers > 1 then RoundedUp(cursor, 512 * Pow2(y), r.value) else r.value == cursor
  {
    Pow2Monotone(y, 4);
    assert Pow2(4) == 16;
    var layerAlignment := if kind.Linear? then 1 else 512 * Pow2(y);
    r := Ok(cursor);
    if d.arrayLayers > 1 {
      assert Pow2(y + 9) == 512 * Pow2(y) by { Pow2Add(y, 9); assert Pow2(9) == 512; }
      AlignRounds(cursor, layerAlignment, y + 9);
      r := Align(cursor, layerAlignment);
      if r.Err? { return Err(Overflow); }
    }
    if r.value >= U32 { return Err(Overflow); }
  }

  /** The checks of a descriptor, in their order. */
  method Check(d: Descriptor, kind: LayoutKind) returns (ok: bool)
    ensures ok <==> Admitted(d, kind)
  {
    if d.width == 0 || d.height == 0 || d.width > MAX_DIMENSION || d.height > MAX_DIMENSION
       || d.arrayLayers == 0 || d.arrayLayers > MAX_ARRAY_LAYERS
       || d.bytesPerPixel !in {1, 2, 4}
       || d.mipLevels == 0 || d.mipLevels > BitLength(Max(d.width, d.height)) || d.mipLevels > MAX_MIP_LEVELS {
      return false;
    }
    if kind.BlockLinear? {
      if kind.baseYLog2 > 4 || (!kind.clampMips && (d.mipLevels != 1 || d.arrayLayers != 1)) { return false; }
    }
    if kind == Linear && (d.mipLevels != 1 || d.arrayLayers != 1) { return false; }
    return true;
  }

  /** A layout exists for every admitted descriptor: no overflow check can fail. */
  method Plan(d: Descriptor, kind: LayoutKind) returns (r: Result<Layout, Error>)
    ensures r.Ok? <==> Admitted(d, kind)
    ensures r.Ok? ==> r.value.descriptor == d && r.value.kind == kind && IsLayout(r.value)
    ensures r.Err? ==> r.error == InvalidDescriptor
  {
    var ok := Check(d, kind);
    if !ok { return Err(InvalidDescriptor); }
    var levels, cursor := PlanLevels(d, kind);
    var arrayPitch := PlanPitch(d, kind, cursor, levels[0].tileYLog2);
    if arrayPitch.Err? { return Err(Overflow); }
    MulMonotone(arrayPitch.value, U32, d.arrayLayers, MAX_ARRAY_LAYERS);
    var total := CheckedMul(arrayPitch.value, d.arrayLayers);
    if total.Err? { return Err(Overflow); }
    r := Ok(Layout(d, kind, levels, arrayPitch.value, total.value));
  }

  ghost predicate Planned(d: Descriptor, kind: LayoutKind, levels: seq<Level>, mips: nat, cursor: nat)
    requires mips <= MAX_MIP_LEVELS
  {
    && |levels| == MAX_MIP_LEVELS && Packed(levels, mips, cursor) && cursor <= CursorBound(mips)
    && forall m :: 0 <= m < mips ==> IsLevel(d, kind, m, levels[m])
  }

  lemma PlannedStart(d: Descriptor, kind: LayoutKind, levels: seq<Level>)
    requires |levels| == MAX_MIP_LEVELS
    ensures Planned(d, kind, levels, 0, 0)
  {
    CursorFits(0);
  }

  lemma PlannedNext(d: Descriptor, kind: LayoutKind, levels: seq<Level>, mips: nat, cursor: nat, level: Level)
    requires mips < MAX_MIP_LEVELS && Planned(d, kind, levels, mips, cursor)
    requires IsLevel(d, kind, mips, level) && level.offset == cursor && cursor + level.size <= CursorBound(mips + 1)
    ensures Planned(d, kind, levels[mips := level], mips + 1, cursor + level.size)
    ensures CheckedAdd(cursor, level.size) == Ok(cursor + level.size)
  {
    PackedSame(levels, levels[mips := level], mips, cursor);
    CursorFits(mips + 1);
  }

  /** The loop over mip levels.  Its checked additions cannot fail either, so it
      hands back the levels and their end. */
  method PlanLevels(d: Descriptor, kind: LayoutKind) returns (levels: seq<Level>, cursor: nat)
    requires Admitted(d, kind)
    ensures Planned(d, kind, levels, d.mipLevels, cursor)
    ensures cursor + 8192 < U32 && levels[0].tileYLog2 <= 4
  {
    levels := seq(MAX_MIP_LEVELS, _ => Level(0, 0, 0, 0, 0, 0));
    cursor := 0;
    PlannedStart(d, kind, levels);
    for mip := 0 to d.mipLevels
      invariant Planned(d, kind, levels, mip, cursor)
    {
      var level := PlanLevel(d, kind, mip, cursor);
      PlannedNext(d, kind, levels, mip, cursor, level.value);
      levels := levels[mip := level.value];
      cursor := CheckedAdd(cursor, level.value.size).value;
    }
    CursorFits(d.mipLevels);
    StorageRowsFit(d, kind, 0);
    assert IsLevel(d, kind, 0, levels[0]);
  }

  lemma {:induction false} PackedSame(a: seq<Level>, b: seq<Level>, mips: nat, end: nat)
    requires mips <= |a| == |b| && forall m :: 0 <= m < mips ==> a[m] == b[m]
    requires Packed(a, mips, end)
    ensures Packed(b, mips, end)
  {
    if mips > 0 { PackedSame(a, b, mips - 1, a[mips - 1].offset); }
  }

  // ---------------------------------------------------------------------------
  // Block-linear addressing
  // ---------------------------------------------------------------------------

  /** The byte within a 64 by 8 GOB. */
  function GobOffset(x: nat, y: nat): (g: int)
    ensures g >= 0
  {
    x % 64 / 32 * 256 + y % 8 / 2 * 64 + x % 32 / 16 * 32 + y % 2 * 16 + x % 16
  }

  /** The first byte of the tile in tile row `yb` and tile column `xb`. */
  function TileOffset(yb: int, xb: int, w: int, t: int): int {
    (yb * w + xb) * (512 * t)
  }

  function BlockLinearOffset(xByte: nat, y: nat, pitch: nat, tileYLog2: nat): Result<int, Error> {
    if tileYLog2 > 4 || pitch == 0 || pitch % 64 != 0 || xByte >= pitch then Err(InvalidDescriptor)
    else
      var blockHeight := 8 * Pow2(tileYLog2);
      var block := TileOffset(y / blockHeight, xByte / 64, pitch / 64, Pow2(tileYLog2));
      Ok(block + y % blockHeight / 8 * 512 + GobOffset(xByte, y))
  }

  /** The column and the row of a byte, read off its offset. */
  function Column(o: nat, pitch: nat, tileYLog2: nat): int
    requires pitch >= 64
  {
    o / 512 / Pow2(tileYLog2) % (pitch / 64) * 64 + o % 512 / 256 * 32 + o % 64 / 32 * 16 + o % 16
  }

  function Row(o: nat, pitch: nat, tileYLog2: nat): int
    requires pitch >= 64
  {
    o / 512 / Pow2(tileYLog2) / (pitch / 64) * (8 * Pow2(tileYLog2))
    + o / 512 % Pow2(tileYLog2) * 8 + o % 256 / 64 * 2 + o % 32 / 16
  }

  lemma ColumnMods(x: nat)
    ensures x % 32 == x % 64 % 32 && x % 16 == x % 64 % 16
  {
    ModMod(x, 2, 32, 64);
    ModMod(x, 4, 16, 64);
  }

  lemma GobColumn(u: nat)
    requires u < 64
    ensures u == u / 32 * 32 + u % 32 / 16 * 16 + u % 16 && u / 32 < 2 && u % 32 / 16 < 2
  {
  }

  lemma ColumnDigits(x: nat)
    ensures x == x / 64 * 64 + x % 64 / 32 * 32 + x % 32 / 16 * 16 + x % 16
    ensures x % 64 / 32 < 2 && x % 32 / 16 < 2
  {
    ColumnMods(x);
    GobColumn(x % 64);
  }

  lemma RowDigits(y: nat)
    ensures y == y / 8 * 8 + y % 8 / 2 * 2 + y % 2
  {
    var v := y % 8;
    assert y == y / 8 * 8 + v;
    assert v == v / 2 * 2 + v % 2;
    ModMod(y, 4, 2, 8);
  }

  lemma GobDigits(a: nat, b: nat, c: nat, e: nat, f: nat)
    requires a < 2 && b < 2 && c < 16 && e < 4 && f < 2
    ensures var g := a * 256 + e * 64 + b * 32 + f * 16 + c;
            && g < 512 && g / 256 == a && g % 64 / 32 == b && g % 16 == c
            && g % 256 / 64 == e && g % 32 / 16 == f
  {
    Divide(a, e * 64 + b * 32 + f * 16 + c, 256);
    Divide(e, b * 32 + f * 16 + c, 64);
    Divide(4 * a + e, b * 32 + f * 16 + c, 64);
    Divide(b, f * 16 + c, 32);
    Divide(8 * a + 2 * e + b, f * 16 + c, 32);
    Divide(f, c, 16);
    Divide(16 * a + 4 * e + 2 * b + f, c, 16);
  }

  lemma ModChain(o: nat)
    ensures o % 256 == o % 512 % 256 && o % 64 == o % 512 % 64 && o % 32 == o % 512 % 32 && o % 16 == o % 512 % 16
  {
    ModMod(o, 2, 256, 512);
    ModMod(o, 8, 64, 512);
    ModMod(o, 16, 32, 512);
    ModMod(o, 32, 16, 512);
  }

  /** Three-level positional form of an offset. */
  lemma OffsetDigits(yb: nat, xb: nat, gy: nat, g: nat, w: nat, t: nat)
    requires xb < w && gy < t && g < 512
    ensures var o := TileOffset(yb, xb, w, t) + gy * 512 + g;
            && o >= 0 && o / 512 / t / w == yb && o / 512 / t % w == xb && o / 512 % t == gy && o % 512 == g
  {
    var n := yb * w + xb;
    var k := n * t + gy;
    TimesBlock(n, t, gy);
    Divide(k, g, 512);
    Divide(n, gy, t);
    Divide(yb, xb, w);
  }

  lemma TimesBlock(n: nat, t: nat, gy: nat)
    ensures n * (512 * t) + gy * 512 == (n * t + gy) * 512
  {
  }

  /** A row in units of tiles, GOBs and lines. */
  lemma TileRows(y: nat, t: nat)
    requires t > 0
    ensures y / (8 * t) >= 0 && 0 <= y % (8 * t) / 8 < t
    ensures y == y / (8 * t) * (8 * t) + y % (8 * t) / 8 * 8 + y % 8
  {
    var yb, r := y / (8 * t), y % (8 * t);
    assert y == yb * (8 * t) + r;
    EightTimes(yb, t);
    Divide(yb * t + r / 8, r % 8, 8);
  }

  lemma EightTimes(a: int, t: int)
    ensures a * (8 * t) == 8 * (a * t)
  {
  }

  /** Every byte of the rectangle is found again from its offset: addressing is
      one-to-one, and stays inside the whole tiles it needs. */
  lemma BlockLinearInverse(x: nat, y: nat, pitch: nat, t: nat, tiles: nat)
    requires t <= 4 && pitch > 0 && pitch % 64 == 0 && x < pitch && y < tiles * (8 * Pow2(t))
    ensures var r := BlockLinearOffset(x, y, pitch, t);
            && r.Ok? && 0 <= r.value < pitch * (tiles * (8 * Pow2(t)))
            && Column(r.value, pitch, t) == x && Row(r.value, pitch, t) == y
  {
    var tile, w := Pow2(t), pitch / 64;
    var yb, gy, xb := y / (8 * tile), y % (8 * tile) / 8, x / 64;
    TileRows(y, tile);
    ColumnDigits(x);
    RowDigits(y);
    GobDigits(x % 64 / 32, x % 32 / 16, x % 16, y % 8 / 2, y % 2);
    var g := GobOffset(x, y);
    OffsetDigits(yb, xb, gy, g, w, tile);
    var o := BlockLinearOffset(x, y, pitch, t).value;
    ModChain(o);
    QuotientBelow(y, 8 * tile, tiles);
    OffsetBound(yb, xb, gy, g, w, tile, tiles);
    assert pitch == w * 64;
  }

  lemma QuotientBelow(y: nat, b: nat, q: nat)
    requires b > 0 && y < q * b
    ensures 0 <= y / b < q
  {
    assert y == y / b * b + y % b;
    Distribute(y / b, q, b);
    AtLeastOne(y / b - q, b);
  }

  lemma OffsetBound(yb: nat, xb: nat, gy: nat, g: nat, w: nat, t: nat, tiles: nat)
    requires yb < tiles && xb < w && gy < t && g < 512
    ensures TileOffset(yb, xb, w, t) + gy * 512 + g < w * 64 * (tiles * (8 * t))
  {
    var n := yb * w + xb;
    Below(yb, xb, w, tiles);
    Below(n, gy, t, tiles * w);
    Below(n * t + gy, g, 512, tiles * w * t);
    TimesBlock(n, t, gy);
    Regroup(w, tiles, t);
  }

  /** A number of two digits is below the product of their ranges. */
  lemma Below(hi: nat, lo: nat, base: nat, n: nat)
    requires hi < n && lo < base
    ensures hi * base + lo < n * base
  {
    Distribute(n, hi, base);
    AtLeastOne(n - hi, base);
  }

  lemma Regroup(w: int, n: int, t: int)
    ensures n * w * t * 512 == w * 64 * (n * (8 * t))
  {
    assert n * (8 * t) == 8 * (n * t);
    assert w * 64 * (8 * (n * t)) == 512 * (w * (n * t));
    assert w * (n * t) == n * w * t;
  }

  lemma GobOfDigits(xb: nat, yb: nat, a: nat, b: nat, c: nat, e: nat, f: nat)
    requires a < 2 && b < 2 && c < 16 && e < 4 && f < 2
    ensures GobOffset(xb * 64 + (a * 32 + b * 16 + c), yb * 8 + (e * 2 + f)) == a * 256 + e * 64 + b * 32 + f * 16 + c
  {
    Divide(xb, a * 32 + b * 16 + c, 64);
    Divide(xb * 2 + a, b * 16 + c, 32);
    Divide(xb * 4 + a * 2 + b, c, 16);
    Divide(yb, e * 2 + f, 8);
    Divide(yb * 4 + e, f, 2);
    var x, y := xb * 64 + (a * 32 + b * 16 + c), yb * 8 + (e * 2 + f);
    assert x == (xb * 2 + a) * 32 + (b * 16 + c) && x == (xb * 4 + a * 2 + b) * 16 + c;
    assert y == (yb * 4 + e) * 2 + f;
    GobFromParts(x, y, a, b, c, e, f);
  }

  lemma GobFromParts(x: nat, y: nat, a: nat, b: nat, c: nat, e: nat, f: nat)
    requires a < 2 && b < 2 && c < 16 && e < 4 && f < 2
    requires x % 64 == a * 32 + b * 16 + c && x % 32 == b * 16 + c && x % 16 == c
    requires y % 8 == e * 2 + f && y % 2 == f
    ensures GobOffset(x, y) == a * 256 + e * 64 + b * 32 + f * 16 + c
  {
  }

  lemma ColumnOfDigits(xb: nat, u: nat, pitch: nat)
    requires pitch % 64 == 0 && xb < pitch / 64 && u < 64
    ensures (xb * 64 + u) / 64 == xb && xb * 64 + u < pitch
  {
    Divide(xb, u, 64);
  }

  lemma RowOfDigits(yb: nat, gy: nat, v: nat, tile: nat)
    requires gy < tile && v < 8
    ensures var y := yb * (8 * tile) + (gy * 8 + v);
            && y >= 0 && y / (8 * tile) == yb && y % (8 * tile) / 8 == gy && y == (yb * tile + gy) * 8 + v
  {
    Below(gy, v, 8, tile);
    Divide(yb, gy * 8 + v, 8 * tile);
    Divide(gy, v, 8);
    EightTimes(yb, tile);
  }

  /** The offset of the byte with the given digits. */
  lemma OffsetOfDigits(yb: nat, xb: nat, gy: nat, u: nat, v: nat, pitch: nat, t: nat, x: nat, y: nat, g: nat)
    requires t <= 4 && pitch > 0 && pitch % 64 == 0 && xb < pitch / 64 && gy < Pow2(t) && u < 64 && v < 8
    requires x == xb * 64 + u && y == yb * (8 * Pow2(t)) + (gy * 8 + v) && GobOffset(x, y) == g
    ensures BlockLinearOffset(x, y, pitch, t) ==
            Ok(TileOffset(yb, xb, pitch / 64, Pow2(t)) + gy * 512 + g)
  {
    ColumnOfDigits(xb, u, pitch);
    RowOfDigits(yb, gy, v, Pow2(t));
  }

  lemma CoordinatesOfParts(yb: nat, xb: nat, gy: nat, g: nat, pitch: nat, t: nat, o: nat)
    requires pitch >= 64 && xb < pitch / 64 && gy < Pow2(t) && g < 512
    requires o == TileOffset(yb, xb, pitch / 64, Pow2(t)) + gy * 512 + g
    ensures Column(o, pitch, t) == xb * 64 + (g / 256 * 32 + g % 64 / 32 * 16 + g % 16)
    ensures Row(o, pitch, t) == yb * (8 * Pow2(t)) + (gy * 8 + (g % 256 / 64 * 2 + g % 32 / 16))
  {
    OffsetDigits(yb, xb, gy, g, pitch / 64, Pow2(t));
    ModChain(o);
  }

  lemma OntoFromParts(yb: nat, xb: nat, gy: nat, g: nat, pitch: nat, t: nat, x: nat, y: nat)
    requires t <= 4 && pitch > 0 && pitch % 64 == 0 && xb < pitch / 64 && gy < Pow2(t) && g < 512
    requires x == xb * 64 + (g / 256 * 32 + g % 64 / 32 * 16 + g % 16)
    requires y == yb * (8 * Pow2(t)) + (gy * 8 + (g % 256 / 64 * 2 + g % 32 / 16))
    ensures BlockLinearOffset(x, y, pitch, t) == Ok(TileOffset(yb, xb, pitch / 64, Pow2(t)) + gy * 512 + g)
  {
    GobParts(g);
    var a, b, c, e, f := g / 256, g % 64 / 32, g % 16, g % 256 / 64, g % 32 / 16;
    RowOfDigits(yb, gy, e * 2 + f, Pow2(t));
    GobOfDigits(xb, yb * Pow2(t) + gy, a, b, c, e, f);
    OffsetOfDigits(yb, xb, gy, a * 32 + b * 16 + c, e * 2 + f, pitch, t, x, y, g);
  }

  lemma SplitOffset(o: nat, w: nat, t: nat, tiles: nat) returns (yb: nat, xb: nat, gy: nat, g: nat)
    requires w > 0 && t > 0 && o < w * 64 * (tiles * (8 * t))
    ensures yb < tiles && xb < w && gy < t && g < 512
    ensures o == TileOffset(yb, xb, w, t) + gy * 512 + g
  {
    Regroup(w, tiles, t);
    var k, n;
    k, g := SplitBelow(o, 512, tiles * w * t);
    n, gy := SplitBelow(k, t, tiles * w);
    yb, xb := SplitBelow(n, w, tiles);
    TimesBlock(n, t, gy);
  }

  lemma SplitBelow(o: nat, base: nat, n: nat) returns (hi: nat, lo: nat)
    requires base > 0 && o < n * base
    ensures hi < n && lo < base && o == hi * base + lo
  {
    QuotientBelow(o, base, n);
    hi, lo := o / base, o % base;
  }

  /** And every offset below that bound is the offset of a byte of the rectangle. */
  lemma BlockLinearOnto(o: nat, pitch: nat, t: nat, tiles: nat)
    requires t <= 4 && pitch > 0 && pitch % 64 == 0 && o < pitch * (tiles * (8 * Pow2(t)))
    ensures var x, y := Column(o, pitch, t), Row(o, pitch, t);
            && 0 <= x < pitch && 0 <= y < tiles * (8 * Pow2(t))
            && BlockLinearOffset(x, y, pitch, t) == Ok(o)
  {
    assert pitch == pitch / 64 * 64;
    var yb, xb, gy, g := SplitOffset(o, pitch / 64, Pow2(t), tiles);
    GobParts(g);
    var u, v := g / 256 * 32 + g % 64 / 32 * 16 + g % 16, g % 256 / 64 * 2 + g % 32 / 16;
    Below(xb, u, 64, pitch / 64);
    Below(gy, v, 8, Pow2(t));
    Below(yb, gy * 8 + v, 8 * Pow2(t), tiles);
    AtLeastOne(yb, 8 * Pow2(t));
    CoordinatesOfParts(yb, xb, gy, g, pitch, t, o);
    OntoFromParts(yb, xb, gy, g, pitch, t, xb * 64 + u, yb * (8 * Pow2(t)) + (gy * 8 + v));
  }

  lemma GobParts(g: nat)
    requires g < 512
    ensures g / 256 < 2 && g % 64 / 32 < 2 && g % 256 / 64 < 4 && g % 32 / 16 < 2
    ensures g == g / 256 * 256 + g % 256 / 64 * 64 + g % 64 / 32 * 32 + g % 32 / 16 * 16 + g % 16
  {
    var r := g % 256;
    assert g % 64 == r % 64;
    var s := g % 64;
    assert g % 32 == s % 32;
    var q := g % 32;
    assert g % 16 == q % 16;
  }

  // ---------------------------------------------------------------------------
  // Subresources and bytes
  // ---------------------------------------------------------------------------

  function SubresourceOf(l: Layout, mipLevel: nat, layer: nat): Result<Subresource, Error>
    requires |l.levels| == MAX_MIP_LEVELS && l.descriptor.mipLevels <= MAX_MIP_LEVELS
  {
    if mipLevel >= l.descriptor.mipLevels || layer >= l.descriptor.arrayLayers then Err(OutOfBounds)
    else
      var level := l.levels[mipLevel];
      var base := CheckedMul(layer, l.arrayPitch);
      if base.Err? then Err(Overflow)
      else
        var offset := CheckedAdd(base.value, level.offset);
        if offset.Err? then Err(Overflow)
        else Ok(Subresource(offset.value, level, layer, mipLevel))
  }

  function ByteOffset(l: Layout, sub: Subresource, xByte: nat, y: nat): Result<int, Error>
    requires |l.levels| == MAX_MIP_LEVELS && l.descriptor.mipLevels <= MAX_MIP_LEVELS
  {
    var found := SubresourceOf(l, sub.mipLevel, sub.layer);
    if found.Err? then Err(found.error)
    else if found.value != sub || xByte >= Times(sub.level.width, l.descriptor.bytesPerPixel) || y >= sub.level.height then
      Err(OutOfBounds)
    else
      var local := Local(l, sub.level, xByte, y);
      if local.Err? then Err(local.error)
      else if sub.offset + local.value < U64 && sub.offset + local.value < l.totalSize then
        Ok(sub.offset + local.value)
      else
        Err(OutOfBounds)
  }

  lemma {:induction false} PackedOrder(levels: seq<Level>, mips: nat, end: nat, m: nat, n: nat)
    requires mips <= |levels| && Packed(levels, mips, end) && m <= n < mips
    ensures levels[n].offset + levels[n].size <= end
    ensures m < n ==> levels[m].offset + levels[m].size <= levels[n].offset
    ensures m == 0 ==> levels[m].offset == 0
    decreases mips
  {
    if n < mips - 1 {
      PackedOrder(levels, mips - 1, levels[mips - 1].offset, m, n);
    } else if m < n {
      PackedOrder(levels, mips - 1, levels[mips - 1].offset, m, m);
    } else if m == 0 {
      assert mips == 1;
    }
  }

  /** The levels of one layer, in order and inside the stride. */
  lemma LevelsInLayer(l: Layout, m: nat, n: nat)
    requires IsLayout(l) && m <= n < l.descriptor.mipLevels
    ensures l.levels[n].offset + l.levels[n].size <= l.arrayPitch
    ensures m < n ==> l.levels[m].offset + l.levels[m].size <= l.levels[n].offset
  {
    var end: nat :| Packed(l.levels, l.descriptor.mipLevels, end) &&
      if l.descriptor.arrayLayers > 1 then RoundedUp(end, 512 * Pow2(l.levels[0].tileYLog2), l.arrayPitch)
      else l.arrayPitch == end;
    PackedOrder(l.levels, l.descriptor.mipLevels, end, m, n);
  }

  lemma WholeTiles(rows: nat, height: nat, t: nat) returns (tiles: nat)
    requires t > 0 && RoundedUp(height, 8 * t, rows)
    ensures rows == tiles * (8 * t)
  {
    tiles := rows / (8 * t);
  }

  /** Rows of whole tiles, wide enough and tall enough for the level. */
  ghost predicate Shaped(l: Layout, v: Level, rows: nat, tiles: nat) {
    && v.width > 0 && v.height > 0 && v.rowPitch > 0 && v.size > 0
    && v.size == Times(v.rowPitch, rows) && v.height <= rows
    && Times(v.width, l.descriptor.bytesPerPixel) <= v.rowPitch
    && (l.kind.BlockLinear? ==>
          v.tileYLog2 <= 4 && v.rowPitch % 64 == 0 && rows == tiles * (8 * Pow2(v.tileYLog2)))
  }

  lemma PositiveProduct(a: nat, b: nat)
    requires a > 0 && b > 0
    ensures Times(a, b) > 0
  {
    AtLeastOne(a, b);
  }

  lemma LevelShape(l: Layout, m: nat) returns (rows: nat, tiles: nat)
    requires IsLayout(l) && m < l.descriptor.mipLevels
    ensures Shaped(l, l.levels[m], rows, tiles)
  {
    var v := l.levels[m];
    assert IsLevel(l.descriptor, l.kind, m, v);
    rows :| IsRows(l.kind, v.height, v.tileYLog2, rows) && v.size == Times(v.rowPitch, rows);
    StorageRowsFit(l.descriptor, l.kind, m);
    PositiveProduct(v.width, l.descriptor.bytesPerPixel);
    PositiveProduct(v.rowPitch, rows);
    tiles := 0;
    if l.kind.BlockLinear? { tiles := WholeTiles(rows, v.height, Pow2(v.tileYLog2)); }
  }

  lemma LinearLocal(v: Level, rows: nat, xByte: nat, y: nat)
    requires v.size == Times(v.rowPitch, rows) && xByte < v.rowPitch && y < rows
    ensures var local := Times(y, v.rowPitch) + xByte;
            local < v.size && local / v.rowPitch == y && local % v.rowPitch == xByte
  {
    Below(y, xByte, v.rowPitch, rows);
    Divide(y, xByte, v.rowPitch);
  }

  /** The offset of a byte within its level. */
  function Local(l: Layout, v: Level, xByte: nat, y: nat): Result<int, Error> {
    if l.kind.Linear? then Ok(Times(y, v.rowPitch) + xByte)
    else BlockLinearOffset(xByte, y, v.rowPitch, v.tileYLog2)
  }

  /** The bytes of a level are kept apart and stay inside the level. */
  lemma LocalInLevel(l: Layout, v: Level, rows: nat, tiles: nat, xByte: nat, y: nat)
    requires Shaped(l, v, rows, tiles)
    requires xByte < Times(v.width, l.descriptor.bytesPerPixel) && y < v.height
    ensures Local(l, v, xByte, y).Ok? && 0 <= Local(l, v, xByte, y).value < v.size
    ensures l.kind.Linear? ==>
              var o := Local(l, v, xByte, y).value; o / v.rowPitch == y && o % v.rowPitch == xByte
    ensures l.kind.BlockLinear? ==>
              var o := Local(l, v, xByte, y).value;
              Column(o, v.rowPitch, v.tileYLog2) == xByte && Row(o, v.rowPitch, v.tileYLog2) == y
  {
    if l.kind.Linear? {
      LinearLocal(v, rows, xByte, y);
    } else {
      BlockLinearInverse(xByte, y, v.rowPitch, v.tileYLog2, tiles);
    }
  }

  /** A layer's bytes end where the next layer begins, and the last one's at the end. */
  lemma LayerBounds(l: Layout, layer: nat, local: nat)
    requires IsLayout(l) && layer < l.descriptor.arrayLayers && local < l.arrayPitch
    ensures Times(layer, l.arrayPitch) + local < l.totalSize && l.totalSize + U32 < U64
  {
    Below(layer, local, l.arrayPitch, l.descriptor.arrayLayers);
    MulMonotone(l.arrayPitch, U32, l.descriptor.arrayLayers, MAX_ARRAY_LAYERS);
  }

  lemma SubresourceValue(l: Layout, m: nat, layer: nat)
    requires |l.levels| == MAX_MIP_LEVELS && l.descriptor.mipLevels <= MAX_MIP_LEVELS
    requires m < l.descriptor.mipLevels && layer < l.descriptor.arrayLayers
    requires Times(layer, l.arrayPitch) + l.levels[m].offset < U64
    ensures SubresourceOf(l, m, layer) ==
            Ok(Subresource(Times(layer, l.arrayPitch) + l.levels[m].offset, l.levels[m], layer, m))
  {
  }

  /** A level starts below the stride, so the whole sum fits. */
  lemma LevelStarts(l: Layout, m: nat, layer: nat)
    requires IsLayout(l) && m < l.descriptor.mipLevels && layer < l.descriptor.arrayLayers
    ensures l.levels[m].offset < l.levels[m].offset + l.levels[m].size <= l.arrayPitch
    ensures Times(layer, l.arrayPitch) + l.levels[m].offset < U64
  {
    LevelsInLayer(l, m, m);
    var _, _ := LevelShape(l, m);
    LayerBounds(l, layer, l.levels[m].offset);
  }

  /** Every subresource of the image exists, at its place. */
  lemma SubresourceExists(l: Layout, m: nat, layer: nat)
    requires IsLayout(l)
    ensures SubresourceOf(l, m, layer).Ok? <==> m < l.descriptor.mipLevels && layer < l.descriptor.arrayLayers
    ensures m < l.descriptor.mipLevels && layer < l.descriptor.arrayLayers ==>
              SubresourceOf(l, m, layer) ==
              Ok(Subresource(Times(layer, l.arrayPitch) + l.levels[m].offset, l.levels[m], layer, m))
  {
    if m < l.descriptor.mipLevels && layer < l.descriptor.arrayLayers {
      LevelStarts(l, m, layer);
      SubresourceValue(l, m, layer);
    }
  }

  lemma ByteOffsetSum(l: Layout, m: nat, layer: nat, xByte: nat, y: nat, local: nat)
    requires |l.levels| == MAX_MIP_LEVELS && l.descriptor.mipLevels <= MAX_MIP_LEVELS
    requires m < l.descriptor.mipLevels && layer < l.descriptor.arrayLayers
    requires xByte < Times(l.levels[m].width, l.descriptor.bytesPerPixel) && y < l.levels[m].height
    requires Local(l, l.levels[m], xByte, y) == Ok(local)
    requires Times(layer, l.arrayPitch) + (l.levels[m].offset + local) < l.totalSize < U64
    ensures SubresourceOf(l, m, layer).Ok?
    ensures ByteOffset(l, SubresourceOf(l, m, layer).value, xByte, y)
            == Ok(Times(layer, l.arrayPitch) + (l.levels[m].offset + local))
  {
    SubresourceValue(l, m, layer);
  }

  /** What `byte_offset` computes, with the facts that make its checks pass. */
  lemma ByteOffsetValue(l: Layout, m: nat, layer: nat, xByte: nat, y: nat) returns (local: nat)
    requires IsLayout(l) && m < l.descriptor.mipLevels && layer < l.descriptor.arrayLayers
    requires xByte < Times(l.levels[m].width, l.descriptor.bytesPerPixel) && y < l.levels[m].height
    ensures Local(l, l.levels[m], xByte, y) == Ok(local) && local < l.levels[m].size
    ensures l.levels[m].offset + l.levels[m].size <= l.arrayPitch
    ensures SubresourceOf(l, m, layer).Ok?
    ensures ByteOffset(l, SubresourceOf(l, m, layer).value, xByte, y)
            == Ok(Times(layer, l.arrayPitch) + (l.levels[m].offset + local))
    ensures Times(layer, l.arrayPitch) + (l.levels[m].offset + local) < l.totalSize
  {
    var rows, tiles := LevelShape(l, m);
    LocalInLevel(l, l.levels[m], rows, tiles, xByte, y);
    local := Local(l, l.levels[m], xByte, y).value;
    LevelsInLayer(l, m, m);
    LayerBounds(l, layer, l.levels[m].offset + local);
    ByteOffsetSum(l, m, layer, xByte, y, local);
  }

  /** Every byte of every pixel has an address, within its own level's bytes, and
      these lie within the image. */
  lemma ByteOffsetInLevel(l: Layout, m: nat, layer: nat, xByte: nat, y: nat)
    requires IsLayout(l) && m < l.descriptor.mipLevels && layer < l.descriptor.arrayLayers
    requires xByte < Times(l.levels[m].width, l.descriptor.bytesPerPixel) && y < l.levels[m].height
    ensures SubresourceOf(l, m, layer).Ok?
    ensures var sub := SubresourceOf(l, m, layer).value;
            var o := ByteOffset(l, sub, xByte, y);
            && o.Ok? && sub.offset <= o.value < sub.offset + l.levels[m].size
            && sub.offset + l.levels[m].size <= l.totalSize
  {
    SubresourceExists(l, m, layer);
    var local := ByteOffsetValue(l, m, layer, xByte, y);
    LayerBounds(l, layer, l.levels[m].offset + l.levels[m].size - 1);
  }

  /** No two bytes of the image share an address. */
  lemma ByteOffsetInjective(l: Layout, m: nat, layer: nat, x: nat, y: nat, m': nat, layer': nat, x': nat, y': nat)
    requires IsLayout(l)
    requires m < l.descriptor.mipLevels && layer < l.descriptor.arrayLayers
    requires m' < l.descriptor.mipLevels && layer' < l.descriptor.arrayLayers
    requires x < Times(l.levels[m].width, l.descriptor.bytesPerPixel) && y < l.levels[m].height
    requires x' < Times(l.levels[m'].width, l.descriptor.bytesPerPixel) && y' < l.levels[m'].height
    requires SubresourceOf(l, m, layer).Ok? && SubresourceOf(l, m', layer').Ok?
    requires ByteOffset(l, SubresourceOf(l, m, layer).value, x, y) ==
             ByteOffset(l, SubresourceOf(l, m', layer').value, x', y')
    ensures m == m' && layer == layer' && x == x' && y == y'
  {
    var a := ByteOffsetValue(l, m, layer, x, y);
    var b := ByteOffsetValue(l, m', layer', x', y');
    QuotientUnique(Times(layer, l.arrayPitch) + (l.levels[m].offset + a), l.arrayPitch,
                   layer, l.levels[m].offset + a, layer', l.levels[m'].offset + b);
    if m < m' {
      LevelsInLayer(l, m, m');
    } else if m' < m {
      LevelsInLayer(l, m', m);
    }
    LocalInjective(l, m, x, y, x', y');
  }

  lemma LocalInjective(l: Layout, m: nat, x: nat, y: nat, x': nat, y': nat)
    requires IsLayout(l) && m < l.descriptor.mipLevels
    requires x < Times(l.levels[m].width, l.descriptor.bytesPerPixel) && y < l.levels[m].height
    requires x' < Times(l.levels[m].width, l.descriptor.bytesPerPixel) && y' < l.levels[m].height
    requires Local(l, l.levels[m], x, y) == Local(l, l.levels[m], x', y')
    ensures x == x' && y == y'
  {
    var rows, tiles := LevelShape(l, m);
    LocalInLevel(l, l.levels[m], rows, tiles, x, y);
    LocalInLevel(l, l.levels[m], rows, tiles, x', y');
  }

  // ---------------------------------------------------------------------------
  // Transfers
  // ---------------------------------------------------------------------------

  function TransferOf(l: Layout, mipLevel: nat, layer: nat, x: nat, y: nat, width: nat, height: nat)
    : Result<Transfer, Error>
    requires |l.levels| == MAX_MIP_LEVELS && l.descriptor.mipLevels <= MAX_MIP_LEVELS
  {
    var sub := SubresourceOf(l, mipLevel, layer);
    if sub.Err? then Err(sub.error)
    else if width == 0 || height == 0
      || x + width >= U32 || x + width > sub.value.level.width
      || y + height >= U32 || y + height > sub.value.level.height then
      Err(OutOfBounds)
    else
      var withRow := CheckedAdd(sub.value.offset, Times(y, sub.value.level.rowPitch));
      if withRow.Err? then Err(Overflow)
      else
        var offset := CheckedAdd(withRow.value, Times(x, l.descriptor.bytesPerPixel));
        if offset.Err? then Err(Overflow)
        else Ok(Transfer(offset.value, sub.value.level.rowPitch, l.arrayPitch, x, y, width, height))
  }

  /** `position`: the first level with this offset and pitch. */
  function FindLevel(levels: seq<Level>, mips: nat, from: nat, local: int, rowPitch: nat): Option<nat>
    requires from <= mips <= |levels|
    decreases mips - from
  {
    if from == mips then None
    else if levels[from].offset == local && levels[from].rowPitch == rowPitch then Some(from)
    else FindLevel(levels, mips, from + 1, local, rowPitch)
  }

  /** The level and layer a transfer's first pixel belongs to, if it is that of a
      level with its pitch.  The pixel offset is a 64-bit sum, which may wrap. */
  function Locate(l: Layout, t: Transfer): Result<(nat, nat), Error>
    requires |l.levels| == MAX_MIP_LEVELS && l.descriptor.mipLevels <= MAX_MIP_LEVELS && l.arrayPitch > 0
  {
    var pixelOffset := (Times(t.y, t.rowPitch) + Times(t.x, l.descriptor.bytesPerPixel)) % U64;
    if t.offset < pixelOffset then Err(LayoutMismatch)
    else
      var base: nat := t.offset - pixelOffset;
      var layer := Quotient(base, l.arrayPitch);
      if layer >= U32 then Err(OutOfBounds)
      else
        var mip := FindLevel(l.levels, l.descriptor.mipLevels, 0, Remainder(base, l.arrayPitch), t.rowPitch);
        if mip.None? then Err(LayoutMismatch) else Ok((mip.value, layer))
  }

  function ResolveTransfer(l: Layout, t: Transfer): Result<Subresource, Error>
    requires |l.levels| == MAX_MIP_LEVELS && l.descriptor.mipLevels <= MAX_MIP_LEVELS && l.arrayPitch > 0
  {
    if t.arrayPitch != l.arrayPitch then Err(LayoutMismatch)
    else
      var found := Locate(l, t);
      if found.Err? then Err(found.error)
      else
        var (mip, layer) := found.value;
        var expected := TransferOf(l, mip, layer, t.x, t.y, t.width, t.height);
        if expected.Err? then Err(expected.error)
        else if expected.value != t then Err(LayoutMismatch)
        else SubresourceOf(l, mip, layer)
  }

  function Quotient(a: nat, b: nat): nat
    requires b > 0
  {
    a / b
  }

  function Remainder(a: nat, b: nat): nat
    requires b > 0
  {
    a % b
  }

  lemma Digits(hi: nat, lo: nat, base: nat)
    requires lo < base
    ensures Quotient(Times(hi, base) + lo, base) == hi && Remainder(Times(hi, base) + lo, base) == lo
  {
    Divide(hi, lo, base);
  }

  lemma ArrayPitchPositive(l: Layout)
    requires IsLayout(l)
    ensures l.arrayPitch > 0
  {
    LevelsInLayer(l, 0, 0);
    var _, _ := LevelShape(l, 0);
  }

  /** A level is found by its own offset: offsets of levels differ. */
  lemma {:induction false} FindsLevel(l: Layout, from: nat, m: nat)
    requires IsLayout(l) && from <= m < l.descriptor.mipLevels
    ensures FindLevel(l.levels, l.descriptor.mipLevels, from, l.levels[m].offset, l.levels[m].rowPitch) == Some(m)
    decreases m - from
  {
    if from < m {
      LevelsInLayer(l, from, m);
      var _, _ := LevelShape(l, from);
      FindsLevel(l, from + 1, m);
    }
  }

  /** The pixel of an accepted rectangle lies inside its level, far from wrapping. */
  lemma PixelInLevel(l: Layout, m: nat, x: nat, y: nat)
    requires IsLayout(l) && m < l.descriptor.mipLevels
    requires x < l.levels[m].width && y < l.levels[m].height
    ensures Times(y, l.levels[m].rowPitch) + Times(x, l.descriptor.bytesPerPixel) < U32
  {
    var v := l.levels[m];
    var rows, tiles := LevelShape(l, m);
    var bpp := l.descriptor.bytesPerPixel;
    Below(x, 0, bpp, v.width);
    Below(y, Times(x, bpp), v.rowPitch, rows);
    LevelsInLayer(l, m, m);
  }

  /** What `transfer` builds for a rectangle of a subresource. */
  lemma TransferValue(l: Layout, m: nat, layer: nat, x: nat, y: nat, width: nat, height: nat)
    requires IsLayout(l)
    ensures TransferOf(l, m, layer, x, y, width, height).Ok? <==>
            && m < l.descriptor.mipLevels && layer < l.descriptor.arrayLayers
            && width > 0 && height > 0 && x + width <= l.levels[m].width && y + height <= l.levels[m].height
    ensures TransferOf(l, m, layer, x, y, width, height).Ok? ==>
              TransferOf(l, m, layer, x, y, width, height).value ==
              Transfer(Times(layer, l.arrayPitch) + l.levels[m].offset
                       + (Times(y, l.levels[m].rowPitch) + Times(x, l.descriptor.bytesPerPixel)),
                       l.levels[m].rowPitch, l.arrayPitch, x, y, width, height)
  {
    SubresourceExists(l, m, layer);
    if m < l.descriptor.mipLevels && layer < l.descriptor.arrayLayers {
      assert IsLevel(l.descriptor, l.kind, m, l.levels[m]);
      ExtentBound(l.descriptor.width, m);
      ExtentBound(l.descriptor.height, m);
      Pow2Monotone(14 - m, 14);
      if x < l.levels[m].width && y < l.levels[m].height {
        PixelInLevel(l, m, x, y);
        LevelsInLayer(l, m, m);
        var _, _ := LevelShape(l, m);
        LayerBounds(l, layer, l.levels[m].offset);
      }
    }
  }

  lemma LocateInverts(l: Layout, m: nat, layer: nat, base: nat, pixel: nat, t: Transfer)
    requires |l.levels| == MAX_MIP_LEVELS && l.descriptor.mipLevels <= MAX_MIP_LEVELS && l.arrayPitch > 0
    requires m < l.descriptor.mipLevels && layer < U32 && l.levels[m].offset < l.arrayPitch
    requires base == Times(layer, l.arrayPitch) + l.levels[m].offset
    requires pixel == Times(t.y, t.rowPitch) + Times(t.x, l.descriptor.bytesPerPixel) && pixel < U64
    requires t.offset == base + pixel
    requires FindLevel(l.levels, l.descriptor.mipLevels, 0, l.levels[m].offset, t.rowPitch) == Some(m)
    ensures Locate(l, t) == Ok((m, layer))
  {
    Digits(layer, l.levels[m].offset, l.arrayPitch);
  }

  /** Every transfer built for a rectangle resolves to exactly its subresource. */
  lemma ResolveInverts(l: Layout, m: nat, layer: nat, x: nat, y: nat, width: nat, height: nat)
    requires IsLayout(l) && TransferOf(l, m, layer, x, y, width, height).Ok?
    ensures l.arrayPitch > 0
    ensures ResolveTransfer(l, TransferOf(l, m, layer, x, y, width, height).value) == SubresourceOf(l, m, layer)
  {
    ArrayPitchPositive(l);
    TransferValue(l, m, layer, x, y, width, height);
    PixelInLevel(l, m, x, y);
    LevelsInLayer(l, m, m);
    var _, _ := LevelShape(l, m);
    FindsLevel(l, 0, m);
    LocateInverts(l, m, layer, Times(layer, l.arrayPitch) + l.levels[m].offset,
                  Times(y, l.levels[m].rowPitch) + Times(x, l.descriptor.bytesPerPixel),
                  TransferOf(l, m, layer, x, y, width, height).value);
  }

  /** Every accepted transfer is the one built for the subresource it resolves to,
      so no two subresources share a transfer. */
  lemma ResolveSound(l: Layout, t: Transfer)
    requires IsLayout(l) && l.arrayPitch > 0 && ResolveTransfer(l, t).Ok?
    ensures var sub := ResolveTransfer(l, t).value;
            && TransferOf(l, sub.mipLevel, sub.layer, t.x, t.y, t.width, t.height) == Ok(t)
            && SubresourceOf(l, sub.mipLevel, sub.layer) == Ok(sub)
  {
    var (mip, layer) := Locate(l, t).value;
    SubresourceExists(l, mip, layer);
  }

  lemma TransfersDiffer(l: Layout, m: nat, layer: nat, m': nat, layer': nat, x: nat, y: nat, width: nat, height: nat)
    requires IsLayout(l)
    requires TransferOf(l, m, layer, x, y, width, height).Ok?
    requires TransferOf(l, m, layer, x, y, width, height) == TransferOf(l, m', layer', x, y, width, height)
    ensures m == m' && layer == layer'
  {
    ResolveInverts(l, m, layer, x, y, width, height);
    ResolveInverts(l, m', layer', x, y, width, height);
    SubresourceExists(l, m, layer);
    SubresourceExists(l, m', layer');
    TransferValue(l, m, layer, x, y, width, height);
    TransferValue(l, m', layer', x, y, width, height);
  }
}
