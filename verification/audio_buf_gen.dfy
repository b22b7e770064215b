/**
 * `AudioBufGen::piecewise_linear` of src/audio.rs: fills the leading frames of a
 * stereo buffer by walking adjacent node pairs and interpolating linearly between
 * their amplitudes, then returns the phase offset for the next buffer.
 *
 * Node `i` falls at frame `FrameIndex(wave[i].wavePos, |buf|)`; the pair (i, i+1)
 * writes the frames between the two boundaries.
 */
module AudioBufGen {
  import opened RealMath
  import opened ShaperWave

  /** One interleaved stereo frame `(left, right)`. */
  datatype Frame = Frame(left: real, right: real)

  /** The value `render` clears every frame to before generating. */
  const Silence: Frame := Frame(0.0, 0.0)

  /** A frame carrying the same value on both channels. */
  function Mono(v: real): Frame { Frame(v, v) }

  /** The frame at which node `i` falls in a buffer of `len` frames. */
  function Boundary(wave: seq<ShaperNode>, i: nat, len: nat): nat
    requires i < |wave|
  {
    FrameIndex(wave[i].wavePos, len)
  }

  /** One past the last frame the generator writes: the boundary of the last node. */
  function WrittenEnd(wave: seq<ShaperNode>, len: nat): nat
    requires |wave| >= 1
  {
    Boundary(wave, |wave| - 1, len)
  }

  /**
   * The frame layout the generator's arithmetic relies on: at least one node
   * (`wave.len() - 1` underflows otherwise), a first boundary at frame 0 and a last
   * boundary inside the buffer (so no write passes its end).
   */
  predicate InRange(wave: seq<ShaperNode>, len: nat)
  {
    && |wave| >= 1
    && Boundary(wave, 0, len) == 0
    && WrittenEnd(wave, len) <= len
  }

  /** Boundaries never decrease along the wave. */
  predicate Ascending(wave: seq<ShaperNode>, len: nat)
  {
    forall i, j :: 0 <= i <= j < |wave| ==> Boundary(wave, i, len) <= Boundary(wave, j, len)
  }

  /**
   * What the generator needs of its wave: the layout above, and boundaries that never
   * decrease, so the node pairs write the prefix [0, WrittenEnd) once each.
   */
  predicate Renderable(wave: seq<ShaperNode>, len: nat)
  {
    InRange(wave, len) && Ascending(wave, len)
  }

  /**
   * A sorted wave that starts at or before position 0 and ends at or before position 1
   * is renderable into a buffer of any length.
   */
  lemma SortedIsRenderable(wave: seq<ShaperNode>, len: nat)
    requires |wave| >= 1 && Sorted(wave)
    requires wave[0].wavePos <= 0.0 && wave[|wave| - 1].wavePos <= 1.0
    ensures Renderable(wave, len)
  {
    forall i, j | 0 <= i <= j < |wave|
      ensures Boundary(wave, i, len) <= Boundary(wave, j, len)
    {
      FrameIndexMonotone(wave[i].wavePos, wave[j].wavePos, len);
    }
    FrameIndexBounds(wave[0].wavePos, len);
    FrameIndexBounds(wave[|wave| - 1].wavePos, len);
  }

  /**
   * The segment that frame `c` belongs to, searching from segment `i`: the first pair
   * whose right boundary lies after `c`.
   */
  function SegmentFrom(wave: seq<ShaperNode>, len: nat, c: nat, i: nat): (k: nat)
    requires InRange(wave, len) && i < |wave| - 1
    requires Boundary(wave, i, len) <= c < WrittenEnd(wave, len)
    ensures i <= k < |wave| - 1
    ensures Boundary(wave, k, len) <= c < Boundary(wave, k + 1, len)
    decreases |wave| - i
  {
    if c < Boundary(wave, i + 1, len) then i else SegmentFrom(wave, len, c, i + 1)
  }

  /** The segment (index of its left node) that frame `c` belongs to. */
  function Segment(wave: seq<ShaperNode>, len: nat, c: nat): (k: nat)
    requires InRange(wave, len) && c < WrittenEnd(wave, len)
    ensures k < |wave| - 1
    ensures Boundary(wave, k, len) <= c < Boundary(wave, k + 1, len)
  {
    SegmentFrom(wave, len, c, 0)
  }

  /** A frame inside segment `k` belongs to segment `k` and no other. */
  lemma SegmentIs(wave: seq<ShaperNode>, len: nat, c: nat, k: nat)
    requires Renderable(wave, len) && k < |wave| - 1
    requires Boundary(wave, k, len) <= c < Boundary(wave, k + 1, len)
    ensures c < WrittenEnd(wave, len)
    ensures Segment(wave, len, c) == k
  {
    SegmentFromIs(wave, len, c, 0, k);
  }

  lemma {:induction false} SegmentFromIs(wave: seq<ShaperNode>, len: nat, c: nat, i: nat, k: nat)
    requires Renderable(wave, len) && i <= k < |wave| - 1
    requires Boundary(wave, i, len) <= c
    requires Boundary(wave, k, len) <= c < Boundary(wave, k + 1, len)
    requires c < WrittenEnd(wave, len)
    ensures SegmentFrom(wave, len, c, i) == k
    decreases k - i
  {
    if i < k {
      SegmentFromIs(wave, len, c, i + 1, k);
    }
  }

  /** Segment `i` spans frames [Boundary(i), Boundary(i+1)), all inside the written prefix. */
  predicate Spans(wave: seq<ShaperNode>, len: nat, i: nat)
    requires InRange(wave, len) && i < |wave| - 1
  {
    && Boundary(wave, i, len) <= Boundary(wave, i + 1, len) <= WrittenEnd(wave, len)
    && (forall c :: Boundary(wave, i, len) <= c < Boundary(wave, i + 1, len) ==> Segment(wave, len, c) == i)
  }

  /** In a renderable wave every segment spans exactly the frames between its boundaries. */
  lemma SegmentSpans(wave: seq<ShaperNode>, len: nat, i: nat)
    requires Renderable(wave, len) && i < |wave| - 1
    ensures Spans(wave, len, i)
  {
    forall c | Boundary(wave, i, len) <= c < Boundary(wave, i + 1, len)
      ensures Segment(wave, len, c) == i
    {
      SegmentIs(wave, len, c, i);
    }
  }

  /**
   * The progress of frame `c` through a segment spanning frames [s, e), shifted by the
   * carried offset and wrapped by `fract`.
   */
  function Progress(c: nat, s: nat, e: nat, offset: real): (p: real)
    requires s <= c < e
    ensures 0.0 <= offset ==> 0.0 <= p < 1.0
  {
    assert 0.0 <= (c - s) as real / (e - s) as real;
    Fract((c - s) as real / (e - s) as real + offset)
  }

  /** The progress the generator computes for frame `c`. */
  function ProgressAt(wave: seq<ShaperNode>, len: nat, offset: real, c: nat): real
    requires InRange(wave, len) && c < WrittenEnd(wave, len)
  {
    var k := Segment(wave, len, c);
    Progress(c, Boundary(wave, k, len), Boundary(wave, k + 1, len), offset)
  }

  /** The value the generator writes at frame `c`: interpolation across its segment. */
  function SampleAt(wave: seq<ShaperNode>, len: nat, offset: real, c: nat): real
    requires InRange(wave, len) && c < WrittenEnd(wave, len)
  {
    var k := Segment(wave, len, c);
    Lerp(wave[k].amplitude, wave[k + 1].amplitude, ProgressAt(wave, len, offset, c))
  }

  /** The progress of the last frame written, or 0 when no frame is written. */
  function LastProgress(wave: seq<ShaperNode>, len: nat, offset: real): real
    requires InRange(wave, len)
  {
    LastProgressBefore(wave, len, offset, WrittenEnd(wave, len))
  }

  /**
   * The buffer after the generator has written frames [0, upTo): the generated wave
   * there, `buf` everywhere else.
   */
  function Generated(buf: seq<Frame>, wave: seq<ShaperNode>, offset: real, upTo: nat): seq<Frame>
    requires InRange(wave, |buf|) && upTo <= WrittenEnd(wave, |buf|)
  {
    seq(|buf|, c requires 0 <= c < |buf| =>
      if c < upTo then Mono(SampleAt(wave, |buf|, offset, c)) else buf[c])
  }

  /**
   * The state the generator keeps between frames: `out` holds the first `upTo`
   * generated frames and `progress` is the progress of the last one written.
   */
  predicate FilledUpTo(out: seq<Frame>, buf: seq<Frame>, wave: seq<ShaperNode>, offset: real,
                       upTo: nat, progress: real)
    requires InRange(wave, |buf|)
  {
    && upTo <= WrittenEnd(wave, |buf|)
    && out == Generated(buf, wave, offset, upTo)
    && progress == LastProgressBefore(wave, |buf|, offset, upTo)
  }

  /**
   * The inner `while` of `piecewise_linear` for the node pair (i, i+1): writes the
   * frames of that interval and returns the progress of the last one written.
   */
  method FillInterval(buf: seq<Frame>, out: seq<Frame>, wave: seq<ShaperNode>, offset: real,
                      i: nat, currSample: nat, progress: real)
    returns (out': seq<Frame>, currSample': nat, progress': real)
    requires InRange(wave, |buf|) && i < |wave| - 1 && Spans(wave, |buf|, i)
    requires currSample == Boundary(wave, i, |buf|)
    requires FilledUpTo(out, buf, wave, offset, currSample, progress)
    ensures currSample' == Boundary(wave, i + 1, |buf|)
    ensures FilledUpTo(out', buf, wave, offset, currSample', progress')
  {
    var intervalStart := FrameIndex(wave[i].wavePos, |buf|);
    var intervalEnd := FrameIndex(wave[i + 1].wavePos, |buf|);
    out', currSample', progress' := out, currSample, progress;
    while currSample' < intervalEnd
      invariant intervalStart <= currSample' <= intervalEnd
      invariant FilledUpTo(out', buf, wave, offset, currSample', progress')
    {
      out', progress' := WriteFrame(buf, out', wave, offset, i, currSample', progress');
      currSample' := currSample' + 1;
    }
  }

  /**
   * The body of the inner `while`: the progress of frame `c` through interval `i`,
   * and the interpolated value written to both channels of that frame.
   */
  method WriteFrame(buf: seq<Frame>, out: seq<Frame>, wave: seq<ShaperNode>, offset: real,
                    i: nat, c: nat, progress: real)
    returns (out': seq<Frame>, progress': real)
    requires InRange(wave, |buf|) && i < |wave| - 1 && Spans(wave, |buf|, i)
    requires Boundary(wave, i, |buf|) <= c < Boundary(wave, i + 1, |buf|)
    requires FilledUpTo(out, buf, wave, offset, c, progress)
    ensures FilledUpTo(out', buf, wave, offset, c + 1, progress')
  {
    var intervalStart := FrameIndex(wave[i].wavePos, |buf|);
    var intervalEnd := FrameIndex(wave[i + 1].wavePos, |buf|);
    progress' := Progress(c, intervalStart, intervalEnd, offset);
    var value := Lerp(wave[i].amplitude, wave[i + 1].amplitude, progress');
    WriteStep(out, buf, wave, offset, i, c, progress, progress', value);
    out' := out[c := Frame(value, value)];
  }

  /**
   * One pass of the inner loop: the progress and value computed for frame `c` of
   * interval `i` are the generated ones, so writing it extends the filled prefix.
   */
  lemma WriteStep(out: seq<Frame>, buf: seq<Frame>, wave: seq<ShaperNode>, offset: real,
                  i: nat, c: nat, before: real, progress: real, value: real)
    requires InRange(wave, |buf|) && i < |wave| - 1 && Spans(wave, |buf|, i)
    requires Boundary(wave, i, |buf|) <= c < Boundary(wave, i + 1, |buf|)
    requires FilledUpTo(out, buf, wave, offset, c, before)
    requires progress == Progress(c, Boundary(wave, i, |buf|), Boundary(wave, i + 1, |buf|), offset)
    requires value == Lerp(wave[i].amplitude, wave[i + 1].amplitude, progress)
    ensures c < |out|
    ensures FilledUpTo(out[c := Frame(value, value)], buf, wave, offset, c + 1, progress)
  {
    assert Segment(wave, |buf|, c) == i;
    assert ProgressAt(wave, |buf|, offset, c) == progress;
    assert SampleAt(wave, |buf|, offset, c) == value;
    assert out[c := Frame(value, value)] == Generated(buf, wave, offset, c + 1);
  }

  /** The progress of frame `upTo - 1`, or 0 when `upTo` is 0 (nothing written yet). */
  function LastProgressBefore(wave: seq<ShaperNode>, len: nat, offset: real, upTo: nat): real
    requires InRange(wave, len) && upTo <= WrittenEnd(wave, len)
  {
    if upTo == 0 then 0.0 else ProgressAt(wave, len, offset, upTo - 1)
  }

  /**
   * `piecewise_linear`: overwrites frames [0, WrittenEnd) with the interpolated wave on
   * both channels, leaves the rest of `buf` as it was, and returns the fractional
   * progress one wave-sample past the last frame written.
   */
  method PiecewiseLinear(buf: seq<Frame>, wave: seq<ShaperNode>, wavelen: nat, frameOffset: real)
    returns (out: seq<Frame>, next: real)
    requires Renderable(wave, |buf|)
    requires wavelen > 0
    ensures |out| == |buf|
    ensures WrittenEnd(wave, |buf|) <= |buf|
    ensures forall c :: 0 <= c < WrittenEnd(wave, |buf|) ==>
              out[c] == Mono(SampleAt(wave, |buf|, frameOffset, c))
    ensures forall c :: WrittenEnd(wave, |buf|) <= c < |buf| ==> out[c] == buf[c]
    ensures next == Fract(LastProgress(wave, |buf|, frameOffset) + 1.0 / wavelen as real)
    ensures 0.0 <= frameOffset ==> 0.0 <= next < 1.0
  {
    if 0.0 <= frameOffset {
      NextOffsetInRange(wave, |buf|, frameOffset, wavelen);
    }
    out := buf;
    var currSample: nat := 0;
    var progress: real := 0.0;
    var nodeIndex: nat := 0;
    while nodeIndex < |wave| - 1
      invariant nodeIndex <= |wave| - 1
      invariant currSample == Boundary(wave, nodeIndex, |buf|)
      invariant FilledUpTo(out, buf, wave, frameOffset, currSample, progress)
    {
      SegmentSpans(wave, |buf|, nodeIndex);
      out, currSample, progress := FillInterval(buf, out, wave, frameOffset, nodeIndex, currSample, progress);
      nodeIndex := nodeIndex + 1;
    }
    FilledWhole(out, buf, wave, frameOffset, progress);
    next := Fract(progress + 1.0 / wavelen as real);
  }

  /** A prefix filled up to the last boundary is the whole generated output. */
  lemma FilledWhole(out: seq<Frame>, buf: seq<Frame>, wave: seq<ShaperNode>, offset: real, progress: real)
    requires InRange(wave, |buf|) && FilledUpTo(out, buf, wave, offset, WrittenEnd(wave, |buf|), progress)
    ensures |out| == |buf| && WrittenEnd(wave, |buf|) <= |buf|
    ensures forall c :: 0 <= c < WrittenEnd(wave, |buf|) ==> out[c] == Mono(SampleAt(wave, |buf|, offset, c))
    ensures forall c :: WrittenEnd(wave, |buf|) <= c < |buf| ==> out[c] == buf[c]
    ensures progress == LastProgress(wave, |buf|, offset)
  {
  }

  /** Starting from a non-negative offset, the next buffer's offset lies in [0, 1). */
  lemma NextOffsetInRange(wave: seq<ShaperNode>, len: nat, offset: real, wavelen: nat)
    requires Renderable(wave, len) && wavelen > 0 && 0.0 <= offset
    ensures 0.0 <= Fract(LastProgress(wave, len, offset) + 1.0 / wavelen as real) < 1.0
  {
    assert 0.0 <= LastProgress(wave, len, offset);
    assert 0.0 < 1.0 / wavelen as real;
  }

  /** Every written value lies between the amplitudes of the two nodes of its segment. */
  lemma SampleWithinSegment(wave: seq<ShaperNode>, len: nat, offset: real, c: nat)
    requires Renderable(wave, len) && c < WrittenEnd(wave, len)
    requires 0.0 <= offset
    ensures var k := Segment(wave, len, c);
            Min(wave[k].amplitude, wave[k + 1].amplitude) <= SampleAt(wave, len, offset, c)
              <= Max(wave[k].amplitude, wave[k + 1].amplitude)
  {
    var k := Segment(wave, len, c);
    LerpBetween(wave[k].amplitude, wave[k + 1].amplitude, ProgressAt(wave, len, offset, c));
  }

  /** With no carried offset the first frame of every non-empty segment is its left node's amplitude. */
  lemma SegmentStartsAtLeftNode(wave: seq<ShaperNode>, len: nat, k: nat)
    requires Renderable(wave, len) && k < |wave| - 1
    requires Boundary(wave, k, len) < Boundary(wave, k + 1, len)
    ensures Boundary(wave, k, len) < WrittenEnd(wave, len)
    ensures SampleAt(wave, len, 0.0, Boundary(wave, k, len)) == wave[k].amplitude
  {
    SegmentIs(wave, len, Boundary(wave, k, len), k);
  }
}
