/** The chunk layer of the codec (qoi.go): the seven tags, how the decoder
    reads one chunk, and how the encoder packs a run, a cache hit, a delta or a
    literal into bytes.

    Go's bit operations on bytes are written as the integer arithmetic they
    perform: `(b & m) == t` for a mask `m` of the top k bits is `b / 2^(8-k) ==
    t / 2^(8-k)`, `(b >> s) & (2^w - 1)` is `(b / 2^s) % 2^w`, and an `|` that
    joins fields occupying disjoint bits is `+`. */
module Chunks {
  import opened Bytes
  import opened Pixels

  /** `QOIMagic`, "qoif", the first four bytes of every file. */
  const Magic: seq<byte> := [0x71, 0x6F, 0x69, 0x66]

  /** The same code, as the repository has it, or with the two defects
      described in README.md repaired. */
  datatype Revision = AsWritten | Corrected

  /** The seven cases of the decoder's tag switch. */
  datatype Tag = Index | Run8 | Run16 | Diff8 | Diff16 | Diff24 | Color

  /** The decoder's tag switch, tried in source order. The cases partition
      the 256 byte values, so its magenta `default` branch is unreachable. */
  function Classify(b1: byte): (t: Tag)
    ensures t == Index <==> b1 < 0x40
    ensures t == Run8 <==> 0x40 <= b1 < 0x60
    ensures t == Run16 <==> 0x60 <= b1 < 0x80
    ensures t == Diff8 <==> 0x80 <= b1 < 0xC0
    ensures t == Diff16 <==> 0xC0 <= b1 < 0xE0
    ensures t == Diff24 <==> 0xE0 <= b1 < 0xF0
    ensures t == Color <==> 0xF0 <= b1
  {
    if b1 / 64 == 0x00 / 64 then Index
    else if b1 / 32 == 0x40 / 32 then Run8
    else if b1 / 32 == 0x60 / 32 then Run16
    else if b1 / 64 == 0x80 / 64 then Diff8
    else if b1 / 32 == 0xC0 / 32 then Diff16
    else if b1 / 16 == 0xE0 / 16 then Diff24
    else if b1 / 16 == 0xF0 / 16 then Color
    else assert false; Color                    // default: never taken
  }

  /** Bit `k` of a COLOR tag as 0 or 1; bits 3, 2, 1 and 0 flag r, g, b and a. */
  function ColorFlag(b1: byte, k: nat): (f: nat)
    requires k < 4
    ensures f < 2
  {
    if k == 0 then b1 % 2 else if k == 1 then (b1 / 2) % 2
    else if k == 2 then (b1 / 4) % 2 else (b1 / 8) % 2
  }

  /** How many bytes follow a COLOR tag: one per set mask bit. */
  function ColorPayload(b1: byte): (n: nat)
    ensures n <= 4
  {
    ColorFlag(b1, 3) + ColorFlag(b1, 2) + ColorFlag(b1, 1) + ColorFlag(b1, 0)
  }

  /** The length in bytes of a chunk, tag byte included, as the decoder
      consumes it. */
  function ChunkSize(b1: byte): (n: nat)
    ensures 1 <= n <= 5
  {
    match Classify(b1)
    case Index => 1
    case Run8 => 1
    case Run16 => 2
    case Diff8 => 1
    case Diff16 => 2
    case Diff24 => 3
    case Color => 1 + ColorPayload(b1)
  }

  /** What reading one chunk gives the decoder: the input ended where a tag
      byte was due (`io.EOF` on the tag, a successful early return), the
      input ended inside a chunk (an error), or the new current pixel, the new
      run counter and the position after the chunk. */
  datatype Step = AtEnd | Cut | Chunk(px: Pixel, run: nat, next: nat)

  /** The run counter a RUN_16 chunk sets (qoi.go:119). As written, the
      count is computed on bytes: shifting the five low bits of `b1` left by
      8 discards them, and adding 32 to `b2` wraps. Corrected, the 13-bit
      value is computed in `int`. */
  function Run16Count(rev: Revision, b1: byte, b2: byte): (run: nat)
    ensures rev == AsWritten ==> run == (b2 + 32) % 256
    ensures rev == Corrected ==> run == (b1 % 32) * 256 + b2 + 32
  {
    match rev
    case AsWritten => Byte(Byte((b1 % 32) * 256) + b2 + 32)
    case Corrected => (b1 % 32) * 256 + b2 + 32
  }

  /** DIFF_8 (qoi.go:121-124): three 2-bit fields, each biased by 1, added
      with wrap-around. */
  function Diff8Pixel(px: Pixel, b1: byte): Pixel
  {
    Pixel(Byte(px.r + (b1 / 16) % 4 - 1),
          Byte(px.g + (b1 / 4) % 4 - 1),
          Byte(px.b + b1 % 4 - 1),
          px.a)
  }

  /** DIFF_16 (qoi.go:126-133): a 5-bit red field biased by 15, 4-bit green
      and blue fields biased by 7. */
  function Diff16Pixel(px: Pixel, b1: byte, b2: byte): Pixel
  {
    Pixel(Byte(px.r + b1 % 32 - 15),
          Byte(px.g + b2 / 16 - 7),
          Byte(px.b + b2 % 16 - 7),
          px.a)
  }

  /** DIFF_24 (qoi.go:135-148): four 5-bit fields, each biased by 15, spread
      over three bytes. */
  function Diff24Pixel(px: Pixel, b1: byte, b2: byte, b3: byte): Pixel
  {
    Pixel(Byte(px.r + (b1 % 16) * 2 + b2 / 128 - 15),
          Byte(px.g + (b2 % 128) / 4 - 15),
          Byte(px.b + (b2 % 4) * 8 + b3 / 32 - 15),
          Byte(px.a + b3 % 32 - 15))
  }

  /** One optional byte of a COLOR chunk: when its mask bit is clear the channel
      keeps `current` and nothing is read. */
  datatype Field = Missing | Got(value: byte, next: nat)

  function ReadField(data: seq<byte>, pos: nat, present: bool, current: byte): (f: Field)
    requires pos <= |data|
    ensures f.Missing? <==> present && pos == |data|
    ensures f.Got? ==> f.next == pos + (if present then 1 else 0) <= |data|
    ensures f.Got? && !present ==> f.value == current
  {
    if !present then Got(current, pos)
    else if pos < |data| then Got(data[pos], pos + 1)
    else Missing
  }

  /** COLOR: mask bits 8, 4, 2, 1 select which of r, g, b, a follow, in that
      order, each replacing the channel. */
  function ReadColor(data: seq<byte>, pos: nat, b1: byte, px: Pixel): (s: Step)
    requires pos <= |data|
    ensures s != AtEnd
    ensures s == Cut <==> pos + ColorPayload(b1) > |data|
    ensures s.Chunk? ==> s.next == pos + ColorPayload(b1) && s.run == 0
  {
    var r := ReadField(data, pos, ColorFlag(b1, 3) == 1, px.r);
    if r.Missing? then Cut else
    var g := ReadField(data, r.next, ColorFlag(b1, 2) == 1, px.g);
    if g.Missing? then Cut else
    var b := ReadField(data, g.next, ColorFlag(b1, 1) == 1, px.b);
    if b.Missing? then Cut else
    var a := ReadField(data, b.next, ColorFlag(b1, 0) == 1, px.a);
    if a.Missing? then Cut else
    Chunk(Pixel(r.value, g.value, b.value, a.value), 0, a.next)
  }

  /** One pass of the decoder's `else` branch: read a tag byte at `pos` and
      dispatch on it. */
  function ReadChunk(rev: Revision, data: seq<byte>, pos: nat, px: Pixel, cache: Cache): (s: Step)
    requires pos <= |data|
    ensures s == AtEnd <==> pos == |data|
    ensures pos < |data| ==> (s == Cut <==> pos + ChunkSize(data[pos]) > |data|)
    ensures s.Chunk? ==> s.next == pos + ChunkSize(data[pos]) <= |data|
    ensures s.Chunk? && s.run > 0 ==> s.px == px
    ensures s.Chunk? && Classify(data[pos]) == Index ==> s.px == cache[data[pos]] && s.run == 0
    ensures s.Chunk? && Classify(data[pos]) == Run8 ==> s.px == px && s.run == data[pos] - 0x40
  {
    if pos == |data| then AtEnd else
    var b1 := data[pos];
    match Classify(b1)
    case Index =>
      Chunk(cache[b1], 0, pos + 1)
    case Run8 =>
      Chunk(px, b1 % 32, pos + 1)
    case Run16 =>
      if pos + 1 < |data| then Chunk(px, Run16Count(rev, b1, data[pos + 1]), pos + 2) else Cut
    case Diff8 =>
      Chunk(Diff8Pixel(px, b1), 0, pos + 1)
    case Diff16 =>
      if pos + 1 < |data| then Chunk(Diff16Pixel(px, b1, data[pos + 1]), 0, pos + 2) else Cut
    case Diff24 =>
      if pos + 2 < |data| then Chunk(Diff24Pixel(px, b1, data[pos + 1], data[pos + 2]), 0, pos + 3) else Cut
    case Color =>
      ReadColor(data, pos + 1, b1, px)
  }

  // ---------------------------------------------------------------------
  // The encoder's side

  /** The four per-channel deltas `vr, vg, vb, va`. */
  datatype Deltas = Deltas(r: int, g: int, b: int, a: int)

  /** One delta (qoi.go:247-251). As written, the difference of the 16-bit
      values that `RGBA()` returns (`x * 257`), shifted right by 8; an
      arithmetic shift of a Go `int` is the floor division that Dafny's `/`
      performs for a positive divisor. Corrected, the difference of the
      8-bit values. */
  function Delta(rev: Revision, cur: byte, prev: byte): (d: int)
    ensures rev == AsWritten ==> d == if cur >= prev then cur - prev else cur - prev - 1
    ensures rev == Corrected ==> d == cur - prev
  {
    match rev
    case AsWritten => (cur * 257 - prev * 257) / 256
    case Corrected => cur - prev
  }

  function DeltasOf(rev: Revision, px: Pixel, prev: Pixel): Deltas
  {
    Deltas(Delta(rev, px.r, prev.r), Delta(rev, px.g, prev.g),
           Delta(rev, px.b, prev.b), Delta(rev, px.a, prev.a))
  }

  /** The test that admits one of the three DIFF chunks. */
  predicate SmallDeltas(v: Deltas)
  {
    -16 < v.r < 17 && -16 < v.g < 17 && -16 < v.b < 17 && -16 < v.a < 17
  }

  /** `1` when a channel's delta is nonzero: that channel's COLOR mask bit. */
  function Changed(d: int): (f: nat)
    ensures f == 1 <==> d != 0
    ensures f < 2
  {
    if d != 0 then 1 else 0
  }

  /** The optional channel byte of a COLOR chunk. */
  function IfChanged(d: int, channel: byte): (s: seq<byte>)
    ensures |s| == Changed(d)
  {
    if d != 0 then [channel] else []
  }

  /** The chunk the encoder writes for a pixel that is neither a repeat nor a
      cache hit: DIFF_8, DIFF_16 or DIFF_24 when the deltas are small, else a
      COLOR chunk carrying the channels whose delta is nonzero. */
  function DeltaChunk(px: Pixel, v: Deltas): (c: seq<byte>)
    ensures 1 <= |c| <= 5
  {
    if SmallDeltas(v) then
      if v.a == 0 && -2 < v.r < 3 && -2 < v.g < 3 && -2 < v.b < 3 then
        [0x80 + (v.r + 1) * 16 + (v.g + 1) * 4 + (v.b + 1)]
      else if v.a == 0 && -16 < v.r < 17 && -8 < v.g < 9 && -8 < v.b < 9 then
        [0xC0 + (v.r + 15), (v.g + 7) * 16 + (v.b + 7)]
      else
        [0xE0 + (v.r + 15) / 2,
         Byte((v.r + 15) * 128 + (v.g + 15) * 4 + (v.b + 15) / 8),
         Byte((v.b + 15) * 32 + (v.a + 15))]
    else
      [0xF0 + 8 * Changed(v.r) + 4 * Changed(v.g) + 2 * Changed(v.b) + Changed(v.a)]
      + IfChanged(v.r, px.r) + IfChanged(v.g, px.g) + IfChanged(v.b, px.b) + IfChanged(v.a, px.a)
  }

  /** The one- or two-byte chunk that flushes a run of `run` repeats: RUN_8
      with `run - 1`, or RUN_16 with the 13-bit value `run - 33`. */
  function RunChunk(run: int): (c: seq<byte>)
    requires 0 < run <= 0x2020
    ensures |c| == if run < 33 then 1 else 2
  {
    if run < 33 then [0x40 + (run - 1)]
    else [0x60 + (run - 33) / 256, (run - 33) % 256]
  }

  /** A short run is a RUN_8 byte carrying `run - 1` in 0..31; a longer one a
      RUN_16 chunk carrying the 13-bit value `run - 33`. */
  lemma RunChunkFields(run: int)
    requires 0 < run <= 0x2020
    ensures var c := RunChunk(run);
      (run < 33 ==> Classify(c[0]) == Run8 && 0 <= c[0] - 0x40 == run - 1 < 32)
      && (run >= 33 ==> Classify(c[0]) == Run16 && (c[0] as int % 32) * 256 + c[1] as int == run - 33 <= 0x1FFF)
  {
  }

  /** The pixel the decoder rebuilds from a DeltaChunk against the previous
      pixel: DIFF chunks add each delta back modulo 256, a COLOR chunk copies
      the channels it carries. */
  function Rebuilt(prev: Pixel, px: Pixel, v: Deltas): Pixel
  {
    if SmallDeltas(v) then
      Pixel(Byte(prev.r + v.r), Byte(prev.g + v.g), Byte(prev.b + v.b), Byte(prev.a + v.a))
    else
      Pixel(if v.r != 0 then px.r else prev.r, if v.g != 0 then px.g else prev.g,
            if v.b != 0 then px.b else prev.b, if v.a != 0 then px.a else prev.a)
  }

  // ---------------------------------------------------------------------
  // What the decoder makes of the encoder's chunks

  /** A RUN chunk is read back as a run of the same length (the pixel is kept
      and `run - 1` further copies follow) exactly when the decoder evaluates
      RUN_16 in `int` or the run is at most 256 long. */
  lemma RunChunkDecodes(rev: Revision, run: int, data: seq<byte>, pos: nat, px: Pixel, cache: Cache)
    requires 0 < run <= 0x2020
    requires pos + |RunChunk(run)| <= |data| && data[pos..pos + |RunChunk(run)|] == RunChunk(run)
    ensures var s := ReadChunk(rev, data, pos, px, cache);
      s.Chunk? && s.px == px && s.next == pos + |RunChunk(run)|
      && (s.run == run - 1 <==> rev == Corrected || run <= 256)
    ensures rev == AsWritten && run > 256 ==>
      ReadChunk(rev, data, pos, px, cache).run == ((run - 33) % 256 + 32) % 256
  {
    var c := RunChunk(run);
    RunChunkFields(run);
    assert data[pos] == c[0];
    if run >= 33 {
      assert data[pos + 1] == c[1];
    }
  }

  /** An INDEX chunk naming the slot that holds `q` is read back as `q`. */
  lemma IndexChunkDecodes(rev: Revision, q: Pixel, data: seq<byte>, pos: nat, px: Pixel, cache: Cache)
    requires cache[Slot(q)] == q
    requires pos < |data| && data[pos] == Slot(q)
    ensures ReadChunk(rev, data, pos, px, cache) == Chunk(q, 0, pos + 1)
  {
  }

  /** Reading the bytes of DeltaChunk(px, v) against the previous pixel yields
      Rebuilt(prev, px, v) and consumes exactly the chunk. */
  lemma DeltaChunkDecodes(rev: Revision, prev: Pixel, px: Pixel, v: Deltas, data: seq<byte>, pos: nat, cache: Cache)
    requires pos + |DeltaChunk(px, v)| <= |data| && data[pos..pos + |DeltaChunk(px, v)|] == DeltaChunk(px, v)
    ensures ReadChunk(rev, data, pos, prev, cache) == Chunk(Rebuilt(prev, px, v), 0, pos + |DeltaChunk(px, v)|)
  {
    var c := DeltaChunk(px, v);
    assert data[pos] == c[0];
    if SmallDeltas(v) {
      if v.a == 0 && -2 < v.r < 3 && -2 < v.g < 3 && -2 < v.b < 3 {
        Diff8Decodes(rev, prev, px, v, data, pos, cache);
      } else if v.a == 0 && -16 < v.r < 17 && -8 < v.g < 9 && -8 < v.b < 9 {
        assert data[pos + 1] == c[1];
        Diff16Decodes(rev, prev, px, v, data, pos, cache);
      } else {
        assert data[pos + 1] == c[1] && data[pos + 2] == c[2];
        Diff24Decodes(rev, prev, px, v, data, pos, cache);
      }
    } else {
      ColorChunkDecodes(prev, px, v, data, pos);
    }
  }

  lemma Diff8Decodes(rev: Revision, prev: Pixel, px: Pixel, v: Deltas, data: seq<byte>, pos: nat, cache: Cache)
    requires v.a == 0 && -2 < v.r < 3 && -2 < v.g < 3 && -2 < v.b < 3
    requires pos < |data| && data[pos] == 0x80 + (v.r + 1) * 16 + (v.g + 1) * 4 + (v.b + 1)
    ensures ReadChunk(rev, data, pos, prev, cache) == Chunk(Rebuilt(prev, px, v), 0, pos + 1)
  {
    Diff8Fields(v);
  }

  lemma Diff16Decodes(rev: Revision, prev: Pixel, px: Pixel, v: Deltas, data: seq<byte>, pos: nat, cache: Cache)
    requires v.a == 0 && -16 < v.r < 17 && -8 < v.g < 9 && -8 < v.b < 9
    requires pos + 2 <= |data| && data[pos] == 0xC0 + (v.r + 15) && data[pos + 1] == (v.g + 7) * 16 + (v.b + 7)
    ensures ReadChunk(rev, data, pos, prev, cache) == Chunk(Rebuilt(prev, px, v), 0, pos + 2)
  {
    assert data[pos] % 32 == v.r + 15 && data[pos + 1] / 16 == v.g + 7 && data[pos + 1] % 16 == v.b + 7;
  }

  lemma Diff24Decodes(rev: Revision, prev: Pixel, px: Pixel, v: Deltas, data: seq<byte>, pos: nat, cache: Cache)
    requires SmallDeltas(v) && !(v.a == 0 && -2 < v.r < 3 && -2 < v.g < 3 && -2 < v.b < 3)
    requires !(v.a == 0 && -16 < v.r < 17 && -8 < v.g < 9 && -8 < v.b < 9)
    requires pos + 3 <= |data| && data[pos] == 0xE0 + (v.r + 15) / 2
    requires data[pos + 1] == Byte((v.r + 15) * 128 + (v.g + 15) * 4 + (v.b + 15) / 8)
    requires data[pos + 2] == Byte((v.b + 15) * 32 + (v.a + 15))
    ensures ReadChunk(rev, data, pos, prev, cache) == Chunk(Rebuilt(prev, px, v), 0, pos + 3)
  {
    Diff24Fields(v, data[pos], data[pos + 1], data[pos + 2]);
    Diff24Rebuilt(prev, px, v, data[pos], data[pos + 1], data[pos + 2]);
  }

  lemma Diff8Fields(v: Deltas)
    requires -2 < v.r < 3 && -2 < v.g < 3 && -2 < v.b < 3
    ensures var b1 := 0x80 + (v.r + 1) * 16 + (v.g + 1) * 4 + (v.b + 1);
      (b1 / 16) % 4 == v.r + 1 && (b1 / 4) % 4 == v.g + 1 && b1 % 4 == v.b + 1
  {
  }

  lemma Diff24Fields(v: Deltas, b1: byte, b2: byte, b3: byte)
    requires SmallDeltas(v)
    requires b1 == 0xE0 + (v.r + 15) / 2
    requires b2 == Byte((v.r + 15) * 128 + (v.g + 15) * 4 + (v.b + 15) / 8)
    requires b3 == Byte((v.b + 15) * 32 + (v.a + 15))
    ensures (b1 % 16) * 2 + b2 / 128 == v.r + 15
    ensures (b2 % 128) / 4 == v.g + 15
    ensures (b2 % 4) * 8 + b3 / 32 == v.b + 15
    ensures b3 % 32 == v.a + 15
  {
    SecondByte(v.r + 15, v.g + 15, v.b + 15, b2);
    ThirdByte(v.b + 15, v.a + 15, b3);
  }

  lemma SecondByte(r: int, g: int, b: int, b2: int)
    requires 0 <= r < 32 && 0 <= g < 32 && 0 <= b < 32
    requires b2 == Byte(r * 128 + g * 4 + b / 8)
    ensures b2 == (r % 2) * 128 + g * 4 + b / 8
    ensures b2 / 128 == r % 2 && (b2 % 128) / 4 == g && b2 % 4 == b / 8
  {
    var low := (r % 2) * 128 + g * 4 + b / 8;
    assert r * 128 == (r / 2) * 256 + (r % 2) * 128;
    DropMultiple(r / 2, low);
  }

  lemma ThirdByte(b: int, a: int, b3: int)
    requires 0 <= b < 32 && 0 <= a < 32
    requires b3 == Byte(b * 32 + a)
    ensures b3 / 32 == b % 8 && b3 % 32 == a
  {
    var low := (b % 8) * 32 + a;
    assert b * 32 == (b / 8) * 256 + (b % 8) * 32;
    DropMultiple(b / 8, low);
  }

  lemma Diff24Rebuilt(prev: Pixel, px: Pixel, v: Deltas, b1: byte, b2: byte, b3: byte)
    requires SmallDeltas(v)
    requires (b1 % 16) * 2 + b2 / 128 == v.r + 15
    requires (b2 % 128) / 4 == v.g + 15
    requires (b2 % 4) * 8 + b3 / 32 == v.b + 15
    requires b3 % 32 == v.a + 15
    ensures Diff24Pixel(prev, b1, b2, b3) == Rebuilt(prev, px, v)
  {
  }

  /** Go's `byte(...)` drops whole multiples of 256. */
  lemma DropMultiple(k: int, y: int)
    requires 0 <= y < 256
    ensures Byte(k * 256 + y) == y
  {
  }

  lemma ColorChunkDecodes(prev: Pixel, px: Pixel, v: Deltas, data: seq<byte>, pos: nat)
    requires !SmallDeltas(v)
    requires pos + |DeltaChunk(px, v)| <= |data| && data[pos..pos + |DeltaChunk(px, v)|] == DeltaChunk(px, v)
    ensures ReadColor(data, pos + 1, data[pos], prev) == Chunk(Rebuilt(prev, px, v), 0, pos + |DeltaChunk(px, v)|)
  {
    var c := DeltaChunk(px, v);
    var b1 := c[0];
    assert data[pos] == b1;
    assert ColorFlag(b1, 3) == Changed(v.r) && ColorFlag(b1, 2) == Changed(v.g)
        && ColorFlag(b1, 1) == Changed(v.b) && ColorFlag(b1, 0) == Changed(v.a);
    var p1 := pos + 1;
    var p2 := p1 + Changed(v.r);
    var p3 := p2 + Changed(v.g);
    var p4 := p3 + Changed(v.b);
    assert v.r != 0 ==> data[p1] == px.r;
    assert v.g != 0 ==> data[p2] == px.g;
    assert v.b != 0 ==> data[p3] == px.b;
    assert v.a != 0 ==> data[p4] == px.a;
  }

  /** With the corrected deltas every chunk choice rebuilds the pixel. */
  lemma CorrectedDeltasRebuild(prev: Pixel, px: Pixel)
    ensures Rebuilt(prev, px, DeltasOf(Corrected, px, prev)) == px
  {
  }

  /** With the deltas as written, the rebuilt pixel is the original exactly
      when a COLOR chunk is chosen or no channel decreased: a negative delta
      comes out one too small and a DIFF chunk then rebuilds a channel one
      below the original. */
  lemma AsWrittenDeltasRebuild(prev: Pixel, px: Pixel)
    ensures Rebuilt(prev, px, DeltasOf(AsWritten, px, prev)) == px
        <==> !SmallDeltas(DeltasOf(AsWritten, px, prev))
             || (px.r >= prev.r && px.g >= prev.g && px.b >= prev.b && px.a >= prev.a)
  {
  }
}
