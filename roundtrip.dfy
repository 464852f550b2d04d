/** What the decoder makes of the encoder's output. With both defects
    repaired (`Corrected`), decoding an encoded image gives back its pixels;
    as written, the DIFF chunks for a channel that decreases are read back one
    too small. */
module RoundTrip {
  import opened Bytes
  import opened Pixels
  import opened Chunks
  import opened Decoder
  import opened Encoder

  /** The decoder's cache agrees with the encoder's on every slot that holds a
      pixel hashing to it. The decoder also caches the pixel of every run it
      reads, and the zero entries of a fresh cache sit in slots they do not hash
      to, so the two caches may differ elsewhere. */
  predicate Agrees(ce: Cache, cd: Cache)
  {
    forall s {:trigger Entry(ce, s)} :: 0 <= s < 64 && Slot(Entry(ce, s)) == s ==> cd[s] == ce[s]
  }

  /** Slot `s` of a cache. */
  function Entry(c: Cache, s: nat): Pixel
    requires s < 64
  {
    c[s]
  }

  /** Byte `k` of the file. */
  function ByteAt(data: seq<byte>, k: nat): byte
    requires k < |data|
  {
    data[k]
  }

  /** The file holds the buffer `out` after its header. */
  predicate Written(data: seq<byte>, out: seq<byte>)
  {
    12 <= |out| <= |data| && forall k {:trigger ByteAt(data, k)} :: 12 <= k < |out| ==> ByteAt(data, k) == out[k]
  }

  lemma WrittenPrefix(data: seq<byte>, out: seq<byte>, enc: seq<byte>)
    requires Written(data, enc) && out <= enc && |out| >= 12
    ensures Written(data, out)
  {
    forall k | 12 <= k < |out| ensures ByteAt(data, k) == out[k] {
      assert ByteAt(data, k) == enc[k];
    }
  }

  /** The bytes `c` are in the file from `pos` on. */
  predicate Lies(data: seq<byte>, pos: nat, c: seq<byte>)
  {
    pos + |c| <= |data| && forall k {:trigger ByteAt(data, k)} :: pos <= k < pos + |c| ==> ByteAt(data, k) == c[k - pos]
  }

  lemma LiesSlice(data: seq<byte>, pos: nat, c: seq<byte>)
    requires Lies(data, pos, c)
    ensures pos + |c| <= |data| && data[pos..pos + |c|] == c
  {
    forall k | 0 <= k < |c| ensures data[pos..pos + |c|][k] == c[k] {
      assert ByteAt(data, pos + k) == c[k];
    }
  }

  lemma ChunkAt(data: seq<byte>, out: seq<byte>, c: seq<byte>)
    requires |out| >= 12 && Written(data, out + c)
    ensures Lies(data, |out|, c)
  {
    forall k | |out| <= k < |out| + |c| ensures ByteAt(data, k) == c[k - |out|] {
      assert ByteAt(data, k) == (out + c)[k];
    }
  }

  /** Caching the same pixel on both sides keeps the caches in agreement. */
  lemma AgreesCached(ce: Cache, cd: Cache, px: Pixel)
    requires Agrees(ce, cd)
    ensures Agrees(ce[Slot(px) := px], cd[Slot(px) := px])
  {
    var ce' := ce[Slot(px) := px];
    forall s | 0 <= s < 64 && Slot(Entry(ce', s)) == s ensures cd[Slot(px) := px][s] == ce'[s] {
      if s != Slot(px) {
        assert Entry(ce, s) == ce'[s];
      }
    }
  }

  /** The decoder caching the pixel of a run keeps the agreement when the
      encoder's cache holds that pixel in its slot, or a pixel of another slot. */
  lemma AgreesAfterRun(ce: Cache, cd: Cache, px: Pixel)
    requires Agrees(ce, cd) && PrevCached(ce, px)
    ensures Agrees(ce, cd[Slot(px) := px])
  {
    forall s | 0 <= s < 64 && Slot(Entry(ce, s)) == s ensures cd[Slot(px) := px][s] == ce[s] {
    }
  }

  /** A RUN chunk of `r` is read, by the corrected decoder, as the current
      pixel with `r - 1` repeats to follow. */
  lemma RunRead(data: seq<byte>, pos: nat, r: nat, prev: Pixel, cd: Cache)
    requires 0 < r <= 0x2020 && Lies(data, pos, RunChunk(r))
    ensures ReadChunk(Corrected, data, pos, prev, cd) == Chunk(prev, r - 1, pos + |RunChunk(r)|)
  {
    LiesSlice(data, pos, RunChunk(r));
    RunChunkDecodes(Corrected, r, data, pos, prev, cd);
  }

  /** The pixel of a RUN chunk and its `r - 1` repeats are `r` copies. */
  lemma RunRest(data: seq<byte>, next: nat, r: nat, prev: Pixel, cd: Cache, n: nat)
    requires 0 < r <= n && next <= |data|
    ensures Join([prev], DecodeBody(Corrected, data, next, r - 1, prev, cd, n - 1))
      == Join(Repeat(prev, r), DecodeBody(Corrected, data, next, 0, prev, cd, n - r))
  {
    RunIterations(Corrected, data, next, r - 1, prev, cd, n - 1);
    JoinAssociative([prev], Repeat(prev, r - 1), DecodeBody(Corrected, data, next, 0, prev, cd, n - r));
    RepeatCons(prev, r);
  }

  /** A RUN chunk of `r` is read back, by the corrected decoder, as `r` copies
      of the current pixel, which the decoder caches. */
  lemma RunDecodes(data: seq<byte>, pos: nat, r: nat, prev: Pixel, cd: Cache, n: nat)
    requires 0 < r <= 0x2020 && r <= n
    requires Lies(data, pos, RunChunk(r))
    ensures DecodeBody(Corrected, data, pos, 0, prev, cd, n)
      == Join(Repeat(prev, r), DecodeBody(Corrected, data, pos + |RunChunk(r)|, 0, prev, cd[Slot(prev) := prev], n - r))
  {
    RunRead(data, pos, r, prev, cd);
    DecodeStep(Corrected, data, pos, prev, cd, n, prev, r - 1, pos + |RunChunk(r)|);
    RunRest(data, pos + |RunChunk(r)|, r, prev, cd[Slot(prev) := prev], n);
  }

  /** The chunk for a changed pixel, an INDEX naming its slot or a delta or
      COLOR chunk against the previous pixel, is read as that pixel. */
  lemma PixelRead(data: seq<byte>, pos: nat, prev: Pixel, px: Pixel, ce: Cache, cd: Cache)
    requires Agrees(ce, cd) && Lies(data, pos, PixelChunk(Corrected, ce, prev, px))
    ensures ReadChunk(Corrected, data, pos, prev, cd) == Chunk(px, 0, pos + |PixelChunk(Corrected, ce, prev, px)|)
  {
    var c := PixelChunk(Corrected, ce, prev, px);
    LiesSlice(data, pos, c);
    if ce[Slot(px)] == px {
      assert Entry(ce, Slot(px)) == px;
      assert data[pos] == c[0];
      IndexChunkDecodes(Corrected, px, data, pos, prev, cd);
    } else {
      DeltaChunkDecodes(Corrected, prev, px, DeltasOf(Corrected, px, prev), data, pos, cd);
      CorrectedDeltasRebuild(prev, px);
    }
  }

  /** The chunk for a changed pixel is read back as that pixel, which the
      decoder caches. */
  lemma PixelDecodes(data: seq<byte>, pos: nat, prev: Pixel, px: Pixel, ce: Cache, cd: Cache, n: nat)
    requires Agrees(ce, cd) && n > 0
    requires Lies(data, pos, PixelChunk(Corrected, ce, prev, px))
    ensures DecodeBody(Corrected, data, pos, 0, prev, cd, n)
      == Join([px], DecodeBody(Corrected, data, pos + |PixelChunk(Corrected, ce, prev, px)|, 0, px, cd[Slot(px) := px], n - 1))
  {
    PixelRead(data, pos, prev, px, ce, cd);
    DecodeStep(Corrected, data, pos, prev, cd, n, px, 0, pos + |PixelChunk(Corrected, ce, prev, px)|);
  }

  // ---------------------------------------------------------------------
  // The three shapes of one encoder pass

  /** A repeat that does not end the run: nothing is written. */
  lemma CountShape(rev: Revision, s: State, px: Pixel, last: bool)
    requires s.run < 0x2020 && px == s.prev && !Flushes(s.run + 1, false, last)
    ensures var t := EncodePixel(rev, s, px, last);
      t.out == s.out && t.prev == s.prev && t.cache == s.cache && t.run == s.run + 1
  {
  }

  /** A repeat that ends the run: the RUN chunk for the whole run. */
  lemma FlushShape(rev: Revision, s: State, px: Pixel, last: bool)
    requires s.run < 0x2020 && px == s.prev && Flushes(s.run + 1, false, last)
    ensures var t := EncodePixel(rev, s, px, last);
      t.out == s.out + RunChunk(s.run + 1) && t.prev == s.prev && t.cache == s.cache && t.run == 0
  {
  }

  /** The bytes written before a changed pixel's own chunk. */
  function Flushed(s: State): (out: seq<byte>)
    requires s.run <= 0x2020
    ensures s.out <= out
  {
    if s.run > 0 then s.out + RunChunk(s.run) else s.out
  }

  /** A changed pixel: the pending run, if any, then the pixel's chunk. */
  lemma ChangeShape(rev: Revision, s: State, px: Pixel, last: bool)
    requires s.run < 0x2020 && px != s.prev
    ensures var t := EncodePixel(rev, s, px, last);
      t.out == Flushed(s) + PixelChunk(rev, s.cache, s.prev, px)
      && t.prev == px && t.cache == s.cache[Slot(px) := px] && t.run == 0
  {
  }

  // ---------------------------------------------------------------------
  // The decoder reading one pass's bytes

  /** The corrected decoder, from byte `pos` with no repeats pending, the
      previous pixel `prev` and the cache `cd`, reads the pixels `rest` in
      `n` passes and stops at byte `end`. */
  predicate Decodes(data: seq<byte>, pos: nat, prev: Pixel, cd: Cache, n: nat, rest: seq<Pixel>, end: nat)
  {
    pos <= |data| && DecodeBody(Corrected, data, pos, 0, prev, cd, n) == Ended(rest, end)
  }

  /** Reading a run chunk, given what follows it. */
  lemma FlushStep(data: seq<byte>, pos: nat, prev: Pixel, r: nat, cd: Cache, n: nat, rest: seq<Pixel>, end: nat)
    requires 0 < r <= 0x2020 && r <= n
    requires Lies(data, pos, RunChunk(r))
    requires Decodes(data, pos + |RunChunk(r)|, prev, cd[Slot(prev) := prev], n - r, rest, end)
    ensures Decodes(data, pos, prev, cd, n, Repeat(prev, r) + rest, end)
  {
    RunDecodes(data, pos, r, prev, cd, n);
  }

  /** Reading a changed pixel's chunk, given what follows it. */
  lemma PixelStep(data: seq<byte>, pos: nat, ce: Cache, prev: Pixel, px: Pixel, cd: Cache, n: nat, rest: seq<Pixel>, end: nat)
    requires n > 0 && Agrees(ce, cd)
    requires Lies(data, pos, PixelChunk(Corrected, ce, prev, px))
    requires Decodes(data, pos + |PixelChunk(Corrected, ce, prev, px)|, px, cd[Slot(px) := px], n - 1, rest, end)
    ensures Decodes(data, pos, prev, cd, n, [px] + rest, end)
  {
    PixelDecodes(data, pos, prev, px, ce, cd, n);
  }

  // ---------------------------------------------------------------------
  // The induction

  /** The encoder carried on from state `s` at pixel `i` to the end of the image. */
  function EncodeFrom(rev: Revision, s: State, pixels: seq<Pixel>, i: nat): (f: State)
    requires i <= |pixels| && s.run < 0x2020
    ensures s.out <= f.out && f.run < 0x2020
    decreases |pixels| - i, 1
  {
    if i == |pixels| then s else EncodeAt(rev, s, pixels, i)
  }

  /** Pixel `i`, then the rest of the image. */
  function EncodeAt(rev: Revision, s: State, pixels: seq<Pixel>, i: nat): (f: State)
    requires i < |pixels| && s.run < 0x2020
    ensures s.out <= f.out && f.run < 0x2020
    decreases |pixels| - i, 0
  {
    EncodeFrom(rev, EncodePixel(rev, s, pixels[i], i + 1 == |pixels|), pixels, i + 1)
  }

  /** The encoder carried on from `s` is the encoder carried on from the state
      after pixel `i`. */
  lemma FromNext(pixels: seq<Pixel>, i: nat, s: State, fin: State)
    requires i < |pixels| && s.run < 0x2020 && fin == EncodeFrom(Corrected, s, pixels, i)
    ensures fin == EncodeFrom(Corrected, EncodePixel(Corrected, s, pixels[i], i + 1 == |pixels|), pixels, i + 1)
  {
    assert EncodeFrom(Corrected, s, pixels, i) == EncodeAt(Corrected, s, pixels, i);
  }

  /** Running the encoder over the first `i` pixels and carrying on from there
      is running it over all of them. */
  lemma {:induction false} RangeFrom(rev: Revision, width: nat, height: nat, pixels: seq<Pixel>, i: nat)
    requires i <= |pixels|
    ensures EncodeFrom(rev, EncodeRange(rev, width, height, pixels, i), pixels, i)
      == EncodeRange(rev, width, height, pixels, |pixels|)
    decreases |pixels| - i
  {
    if i < |pixels| {
      RangeFrom(rev, width, height, pixels, i + 1);
    }
  }

  /** The bytes of a chunk the encoder appends are in the file at the place it
      appends them. */
  lemma Placed(data: seq<byte>, out: seq<byte>, c: seq<byte>, fin: seq<byte>)
    requires |out| >= 12 && out + c <= fin && Written(data, fin)
    ensures Lies(data, |out|, c)
  {
    WrittenPrefix(data, out + c, fin);
    ChunkAt(data, out, c);
  }

  /** What the encoder may be in the middle of at pixel `i`: a pending run of
      fewer than 0x2020 repeats, which the last pixel always ends, the previous
      pixel in its slot, and a decoder cache in agreement. */
  predicate Resumable(pixels: seq<Pixel>, i: nat, s: State, cd: Cache)
  {
    i <= |pixels| && s.run < 0x2020 && |s.out| >= 12 && (i < |pixels| || s.run == 0)
    && PrevCached(s.cache, s.prev) && Agrees(s.cache, cd)
  }

  /** The claim the round trip rests on: a decoder positioned after the bytes
      the encoder has written by pixel `i`, holding its previous pixel and a
      cache in agreement with its own, produces the pending run and all the
      pixels still to come, and stops where the encoder stopped writing. */
  lemma {:induction false} Resumes(pixels: seq<Pixel>, i: nat, s: State, fin: State, data: seq<byte>, cd: Cache)
    requires Resumable(pixels, i, s, cd)
    requires fin == EncodeFrom(Corrected, s, pixels, i) && Written(data, fin.out)
    ensures |s.out| <= |data|
    ensures Decodes(data, |s.out|, s.prev, cd, |pixels| - i + s.run, Repeat(s.prev, s.run) + pixels[i..], |fin.out|)
    decreases |pixels| - i, 1
  {
    if i == |pixels| {
      NothingLeft(s.prev, pixels, i);
    } else if pixels[i] != s.prev && s.run == 0 {
      ChangeResumes(pixels, i, s, fin, data, cd);
    } else if pixels[i] != s.prev {
      ChangeAfterRun(pixels, i, s, fin, data, cd);
    } else if !Flushes(s.run + 1, false, i + 1 == |pixels|) {
      CountResumes(pixels, i, s, fin, data, cd);
    } else {
      FlushResumes(pixels, i, s, fin, data, cd);
    }
  }

  // ---------------------------------------------------------------------
  // The encoder's state after each kind of pass

  lemma CountNext(pixels: seq<Pixel>, i: nat, s: State, cd: Cache, fin: State) returns (t: State)
    requires Resumable(pixels, i, s, cd) && i < |pixels|
    requires pixels[i] == s.prev && !Flushes(s.run + 1, false, i + 1 == |pixels|)
    requires fin == EncodeFrom(Corrected, s, pixels, i)
    ensures Resumable(pixels, i + 1, t, cd) && fin == EncodeFrom(Corrected, t, pixels, i + 1)
    ensures t.out == s.out && t.prev == s.prev && t.run == s.run + 1
  {
    t := EncodePixel(Corrected, s, pixels[i], i + 1 == |pixels|);
    CountShape(Corrected, s, pixels[i], i + 1 == |pixels|);
    PassInvariant(Corrected, s, pixels[i], i + 1 == |pixels|);
    FromNext(pixels, i, s, fin);
  }

  lemma FlushNext(pixels: seq<Pixel>, i: nat, s: State, cd: Cache, fin: State) returns (t: State)
    requires Resumable(pixels, i, s, cd) && i < |pixels|
    requires pixels[i] == s.prev && Flushes(s.run + 1, false, i + 1 == |pixels|)
    requires fin == EncodeFrom(Corrected, s, pixels, i)
    ensures Resumable(pixels, i + 1, t, cd[Slot(s.prev) := s.prev]) && fin == EncodeFrom(Corrected, t, pixels, i + 1)
    ensures t.out == s.out + RunChunk(s.run + 1) && t.prev == s.prev && t.run == 0
  {
    t := EncodePixel(Corrected, s, pixels[i], i + 1 == |pixels|);
    FlushShape(Corrected, s, pixels[i], i + 1 == |pixels|);
    PassInvariant(Corrected, s, pixels[i], i + 1 == |pixels|);
    AgreesAfterRun(s.cache, cd, s.prev);
    FromNext(pixels, i, s, fin);
  }

  lemma ChangeNext(pixels: seq<Pixel>, i: nat, s: State, cd: Cache, fin: State) returns (t: State)
    requires Resumable(pixels, i, s, cd) && i < |pixels| && pixels[i] != s.prev && s.run == 0
    requires fin == EncodeFrom(Corrected, s, pixels, i)
    ensures Resumable(pixels, i + 1, t, cd[Slot(pixels[i]) := pixels[i]]) && fin == EncodeFrom(Corrected, t, pixels, i + 1)
    ensures t.out == s.out + PixelChunk(Corrected, s.cache, s.prev, pixels[i]) && t.prev == pixels[i] && t.run == 0
  {
    t := EncodePixel(Corrected, s, pixels[i], i + 1 == |pixels|);
    ChangeShape(Corrected, s, pixels[i], i + 1 == |pixels|);
    PassInvariant(Corrected, s, pixels[i], i + 1 == |pixels|);
    AgreesCached(s.cache, cd, pixels[i]);
    FromNext(pixels, i, s, fin);
  }

  lemma ChangeAfterRunNext(pixels: seq<Pixel>, i: nat, s: State, cd: Cache, fin: State) returns (t: State)
    requires Resumable(pixels, i, s, cd) && i < |pixels| && pixels[i] != s.prev && s.run > 0
    requires fin == EncodeFrom(Corrected, s, pixels, i)
    ensures var cd1 := cd[Slot(s.prev) := s.prev];
      Agrees(s.cache, cd1) && Resumable(pixels, i + 1, t, cd1[Slot(pixels[i]) := pixels[i]])
      && fin == EncodeFrom(Corrected, t, pixels, i + 1)
    ensures t.out == s.out + RunChunk(s.run) + PixelChunk(Corrected, s.cache, s.prev, pixels[i])
      && t.prev == pixels[i] && t.run == 0
  {
    t := EncodePixel(Corrected, s, pixels[i], i + 1 == |pixels|);
    ChangeShape(Corrected, s, pixels[i], i + 1 == |pixels|);
    PassInvariant(Corrected, s, pixels[i], i + 1 == |pixels|);
    AgreesAfterRun(s.cache, cd, s.prev);
    AgreesCached(s.cache, cd[Slot(s.prev) := s.prev], pixels[i]);
    FromNext(pixels, i, s, fin);
  }

  // ---------------------------------------------------------------------
  // The induction steps

  /** Pixel `i` extends the pending run without ending it. */
  lemma {:induction false} CountResumes(pixels: seq<Pixel>, i: nat, s: State, fin: State, data: seq<byte>, cd: Cache)
    requires Resumable(pixels, i, s, cd) && i < |pixels|
    requires pixels[i] == s.prev && !Flushes(s.run + 1, false, i + 1 == |pixels|)
    requires fin == EncodeFrom(Corrected, s, pixels, i) && Written(data, fin.out)
    ensures |s.out| <= |data|
    ensures Decodes(data, |s.out|, s.prev, cd, |pixels| - i + s.run, Repeat(s.prev, s.run) + pixels[i..], |fin.out|)
    decreases |pixels| - i, 0
  {
    var t := CountNext(pixels, i, s, cd, fin);
    Resumes(pixels, i + 1, t, fin, data, cd);
    CountFinish(data, pixels, i, s, t, cd, |fin.out|);
  }

  /** The decoder's side of a repeat that does not end the run. */
  lemma CountFinish(data: seq<byte>, pixels: seq<Pixel>, i: nat, s: State, t: State, cd: Cache, end: nat)
    requires i < |pixels| && pixels[i] == s.prev
    requires t.out == s.out && t.prev == s.prev && t.run == s.run + 1
    requires |t.out| <= |data|
    requires Decodes(data, |t.out|, t.prev, cd, |pixels| - (i + 1) + t.run, Repeat(t.prev, t.run) + pixels[i + 1..], end)
    ensures |s.out| <= |data|
    ensures Decodes(data, |s.out|, s.prev, cd, |pixels| - i + s.run, Repeat(s.prev, s.run) + pixels[i..], end)
  {
    RunThrough(s.prev, s.run, pixels, i);
  }

  /** An empty run adds nothing. */
  lemma NoRun(p: Pixel, rest: seq<Pixel>)
    ensures Repeat(p, 0) + rest == rest
  {
  }

  lemma NothingLeft(p: Pixel, pixels: seq<Pixel>, i: nat)
    requires i == |pixels|
    ensures Repeat(p, 0) + pixels[i..] == []
  {
  }

  lemma RepeatCons(p: Pixel, r: nat)
    requires r > 0
    ensures [p] + Repeat(p, r - 1) == Repeat(p, r)
  {
  }

  lemma Uncons(pixels: seq<Pixel>, i: nat)
    requires i < |pixels|
    ensures [pixels[i]] + pixels[i + 1..] == pixels[i..]
  {
  }

  /** A run of `r` copies of `pixels[i]` and then the pixels from `i` is a run
      of `r + 1` and then the pixels after `i`. */
  lemma RunThrough(p: Pixel, r: nat, pixels: seq<Pixel>, i: nat)
    requires i < |pixels| && pixels[i] == p
    ensures Repeat(p, r + 1) + pixels[i + 1..] == Repeat(p, r) + pixels[i..]
  {
    assert Repeat(p, r + 1) == Repeat(p, r) + [p];
    assert pixels[i..] == [p] + pixels[i + 1..];
  }

  /** Pixel `i` repeats the previous one and ends the run: the RUN chunk is
      read back as the whole run. */
  lemma {:induction false} FlushResumes(pixels: seq<Pixel>, i: nat, s: State, fin: State, data: seq<byte>, cd: Cache)
    requires Resumable(pixels, i, s, cd) && i < |pixels|
    requires pixels[i] == s.prev && Flushes(s.run + 1, false, i + 1 == |pixels|)
    requires fin == EncodeFrom(Corrected, s, pixels, i) && Written(data, fin.out)
    ensures |s.out| <= |data|
    ensures Decodes(data, |s.out|, s.prev, cd, |pixels| - i + s.run, Repeat(s.prev, s.run) + pixels[i..], |fin.out|)
    decreases |pixels| - i, 0
  {
    var t := FlushNext(pixels, i, s, cd, fin);
    Resumes(pixels, i + 1, t, fin, data, cd[Slot(s.prev) := s.prev]);
    Placed(data, s.out, RunChunk(s.run + 1), fin.out);
    FlushFinish(data, pixels, i, s, t, cd, |fin.out|);
  }

  /** The decoder's side of a repeat that ends the run. */
  lemma FlushFinish(data: seq<byte>, pixels: seq<Pixel>, i: nat, s: State, t: State, cd: Cache, end: nat)
    requires i < |pixels| && pixels[i] == s.prev && s.run < 0x2020
    requires t.out == s.out + RunChunk(s.run + 1) && t.prev == s.prev && t.run == 0
    requires Lies(data, |s.out|, RunChunk(s.run + 1))
    requires |t.out| <= |data|
    requires Decodes(data, |t.out|, t.prev, cd[Slot(s.prev) := s.prev], |pixels| - (i + 1) + t.run, Repeat(t.prev, t.run) + pixels[i + 1..], end)
    ensures |s.out| <= |data|
    ensures Decodes(data, |s.out|, s.prev, cd, |pixels| - i + s.run, Repeat(s.prev, s.run) + pixels[i..], end)
  {
    NoRun(t.prev, pixels[i + 1..]);
    FlushStep(data, |s.out|, s.prev, s.run + 1, cd, |pixels| - i + s.run, pixels[i + 1..], end);
    RunThrough(s.prev, s.run, pixels, i);
  }

  /** Pixel `i` differs from the previous one and no run is pending: its
      chunk is the next thing read. */
  lemma {:induction false} ChangeResumes(pixels: seq<Pixel>, i: nat, s: State, fin: State, data: seq<byte>, cd: Cache)
    requires Resumable(pixels, i, s, cd) && i < |pixels| && pixels[i] != s.prev && s.run == 0
    requires fin == EncodeFrom(Corrected, s, pixels, i) && Written(data, fin.out)
    ensures |s.out| <= |data|
    ensures Decodes(data, |s.out|, s.prev, cd, |pixels| - i + s.run, Repeat(s.prev, s.run) + pixels[i..], |fin.out|)
    decreases |pixels| - i, 0
  {
    var px := pixels[i];
    var t := ChangeNext(pixels, i, s, cd, fin);
    Resumes(pixels, i + 1, t, fin, data, cd[Slot(px) := px]);
    Placed(data, s.out, PixelChunk(Corrected, s.cache, s.prev, px), fin.out);
    PixelFinish(data, pixels, i, |s.out|, s.cache, s.prev, t, cd, |fin.out|);
    NoRun(s.prev, pixels[i..]);
  }

  /** Pixel `i` differs from the previous one and ends the pending run: the
      RUN chunk is read back, then the pixel's own chunk. */
  lemma {:induction false} ChangeAfterRun(pixels: seq<Pixel>, i: nat, s: State, fin: State, data: seq<byte>, cd: Cache)
    requires Resumable(pixels, i, s, cd) && i < |pixels| && pixels[i] != s.prev && s.run > 0
    requires fin == EncodeFrom(Corrected, s, pixels, i) && Written(data, fin.out)
    ensures |s.out| <= |data|
    ensures Decodes(data, |s.out|, s.prev, cd, |pixels| - i + s.run, Repeat(s.prev, s.run) + pixels[i..], |fin.out|)
    decreases |pixels| - i, 0
  {
    var px := pixels[i];
    var cd1 := cd[Slot(s.prev) := s.prev];
    var flushed := s.out + RunChunk(s.run);
    var t := ChangeAfterRunNext(pixels, i, s, cd, fin);
    Resumes(pixels, i + 1, t, fin, data, cd1[Slot(px) := px]);
    Placed(data, flushed, PixelChunk(Corrected, s.cache, s.prev, px), fin.out);
    PixelFinish(data, pixels, i, |flushed|, s.cache, s.prev, t, cd1, |fin.out|);
    Placed(data, s.out, RunChunk(s.run), fin.out);
    RunFinish(data, pixels, i, s, |flushed|, cd, |fin.out|);
  }

  /** The decoder's side of a changed pixel's own chunk at `pos`. */
  lemma PixelFinish(data: seq<byte>, pixels: seq<Pixel>, i: nat, pos: nat, ce: Cache, prev: Pixel, t: State, cd: Cache, end: nat)
    requires i < |pixels| && Agrees(ce, cd)
    requires var c := PixelChunk(Corrected, ce, prev, pixels[i]);
      |t.out| == pos + |c| && Lies(data, pos, c)
    requires t.prev == pixels[i] && t.run == 0
    requires Decodes(data, |t.out|, t.prev, cd[Slot(pixels[i]) := pixels[i]], |pixels| - (i + 1) + t.run, Repeat(t.prev, t.run) + pixels[i + 1..], end)
    ensures Decodes(data, pos, prev, cd, |pixels| - i, pixels[i..], end)
  {
    NoRun(t.prev, pixels[i + 1..]);
    PixelStep(data, pos, ce, prev, pixels[i], cd, |pixels| - i, pixels[i + 1..], end);
    Uncons(pixels, i);
  }

  /** The decoder's side of the run a changed pixel ends, read before the
      pixel's chunk at `pos`. */
  lemma RunFinish(data: seq<byte>, pixels: seq<Pixel>, i: nat, s: State, pos: nat, cd: Cache, end: nat)
    requires i < |pixels| && 0 < s.run < 0x2020
    requires pos == |s.out| + |RunChunk(s.run)| && Lies(data, |s.out|, RunChunk(s.run))
    requires Decodes(data, pos, s.prev, cd[Slot(s.prev) := s.prev], |pixels| - i, pixels[i..], end)
    ensures |s.out| <= |data|
    ensures Decodes(data, |s.out|, s.prev, cd, |pixels| - i + s.run, Repeat(s.prev, s.run) + pixels[i..], end)
  {
    FlushStep(data, |s.out|, s.prev, s.run, cd, |pixels| - i + s.run, pixels[i..], end);
  }

  /** The header of a file laid out around the chunks reads back as the
      dimensions, with the chunks starting at byte 12. */
  lemma HeaderOf(width: nat, height: nat, body: seq<byte>)
    requires width < 65536 && height < 65536
    ensures ReadHeader(Layout(width, height, body)).Success?
    ensures var h := ReadHeader(Layout(width, height, body)).value;
      h.width == width && h.height == height && h.next == 12
  {
    HeaderReadsBack(width, height, body);
  }

  /** The corrected encoder and decoder are inverse: decoding the file written
      for a `width` by `height` image (each below 2^16, the header's field
      width) gives back the image, four bytes per pixel in raster order. */
  lemma RoundTrip(width: nat, height: nat, pixels: seq<Pixel>)
    requires width < 65536 && height < 65536 && |pixels| == width * height
    ensures DecodeImage(Corrected, EncodeImage(Corrected, width, height, pixels))
      == Success(Image(width, height, Flatten(pixels)))
  {
    var enc := EncodeRange(Corrected, width, height, pixels, |pixels|).out;
    var data := Layout(width, height, enc[12..]);
    EncodeImageLayout(Corrected, width, height, pixels);
    HeaderOf(width, height, enc[12..]);
    LayoutWritten(data, enc);
    InitialCached();
    RangeFrom(Corrected, width, height, pixels, 0);
    Started(width, height, pixels, Initial(width, height), EncodeRange(Corrected, width, height, pixels, |pixels|), data);
    DecodedImage(width, height, pixels, data, enc);
  }

  /** The decoder starting on the chunks of the whole file. */
  lemma Started(width: nat, height: nat, pixels: seq<Pixel>, s: State, fin: State, data: seq<byte>)
    requires s == Initial(width, height) && PrevCached(s.cache, s.prev)
    requires fin == EncodeFrom(Corrected, s, pixels, 0) && Written(data, fin.out)
    ensures Decodes(data, 12, Start, EmptyCache(), |pixels|, pixels, |fin.out|)
  {
    Resumes(pixels, 0, s, fin, data, EmptyCache());
    assert |s.out| == 12 && s.prev == Start && s.run == 0;
    FromStart(data, pixels, s.out, s.prev, s.run, |fin.out|);
  }

  lemma FromStart(data: seq<byte>, pixels: seq<Pixel>, out: seq<byte>, prev: Pixel, run: nat, end: nat)
    requires |out| == 12 && prev == Start && run == 0
    requires Decodes(data, |out|, prev, EmptyCache(), |pixels| - 0 + run, Repeat(prev, run) + pixels[0..], end)
    ensures Decodes(data, 12, Start, EmptyCache(), |pixels|, pixels, end)
  {
    NoRun(prev, pixels[0..]);
    assert pixels[0..] == pixels;
  }

  lemma LayoutWritten(data: seq<byte>, enc: seq<byte>)
    requires 12 <= |enc| <= |data| && data[12..|enc|] == enc[12..]
    ensures Written(data, enc)
  {
    forall k | 12 <= k < |enc| ensures ByteAt(data, k) == enc[k] {
      assert data[12..|enc|][k - 12] == enc[12..][k - 12];
    }
  }

  lemma DecodedImage(width: nat, height: nat, pixels: seq<Pixel>, data: seq<byte>, enc: seq<byte>)
    requires |pixels| == width * height
    requires ReadHeader(data).Success?
    requires var h := ReadHeader(data).value; h.width == width && h.height == height && h.next == 12
    requires Decodes(data, 12, Start, EmptyCache(), |pixels|, pixels, |enc|)
    ensures DecodeImage(Corrected, data) == Success(Image(width, height, Flatten(pixels)))
  {
    assert Flatten(pixels) + Zeros(0) == Flatten(pixels);
  }
}
