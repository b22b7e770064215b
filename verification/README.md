# wasm_waveshaper core in Dafny

The waveshaper is a small instrument. The user clicks inside a window to place
*shaper nodes* (a wave position in [0, 1] and an amplitude). The sound engine plays one
cycle of the wave through those nodes, interpolated linearly. Each node is also drawn as
a circle on screen.

This project models the logic of that program:

- The audio side (`src/audio.rs`):
  - the `ShaperNode` wave, kept sorted by wave position (`add_node_to_wave`);
  - the buffer generator `AudioBufGen::piecewise_linear`, with its carried phase offset;
  - `AudioState::new`/`render`;
  - the `SoundEngine` device life cycle (`new`, `initialize_audio_output_device`,
    `destroy_audio_output_device`, `add_node`, `handle_audio_maintenance_events`).
- The visual side (`src/rendering.rs`):
  - the circle list, strictly ordered by x and cyclically linked to right neighbours
    (`add_circle_instance`);
  - the hit test `circle_at_location`, `expand_circle` and `add_circle_at_clip_location`;
  - the cursor-to-clip and clip/world maps, and `dot_product`;
  - `resize`, `handle_window_maintenance_events`;
  - the static vertex and index tables.
- The event composition of `src/lib.rs`: `handle_event` runs window maintenance, then
  audio maintenance, then `handle_shaper_events`.

Modules, one per concern:

| module | file | contents |
|---|---|---|
| `Wrappers` | `wrappers.dfy` | `Option`, `Result`, `Outcome` |
| `RealMath` | `real_math.dfy` | `trunc`, `fract`, the saturating `as usize` cast, linear interpolation |
| `ShaperWave` | `audio_wave.dfy` | `ShaperNode` and the sorted insert |
| `AudioBufGen` | `audio_buf_gen.dfy` | `piecewise_linear` |
| `Audio` | `audio.dfy` | `AudioState`, the `SoundEngine` operations |
| `Events` | `events.dfy` | the winit events the program reacts to |
| `Geometry` | `geometry.dfy` | sizes, points, 4-vectors, column-major matrices, the coordinate maps |
| `Circles` | `circles.dfy` | `CircleInstance` list operations |
| `Rendering` | `rendering.dfy` | the non-GPU part of `rendering::State` |
| `Shaper` | `shaper.dfy` | `ShaperState` and the event step |

Modelling choices:

- `f32` values are exact reals and NaN is excluded.
- `fract` is `x - trunc(x)`, as in Rust, so it is negative for negative inputs.
- `(x).floor() as usize` saturates negatives to 0.
- `wave_pos * buf.len()` is written as `len` repeated additions (`Scaled`) and proved equal to
  the product, so that the boundary arithmetic is unfolded only where a proof needs it.
- The audio buffer is a sequence of `(left, right)` frames, and the generator returns the
  filled buffer instead of writing through `&mut`.
- Opening the output device is outside the model. Its outcome is a parameter
  (`Option<DeviceToken>`), which is `None` when the platform refuses.

Behaviour worth knowing:

- A node whose wave position is already present is not rejected. It is inserted after
  its equals.
- A node at wave position 1 or later is silently dropped.
- The last interpolated segment ends at the (1, 0) node; the generator does not wrap
  back to the first node.
- A click on an existing circle leaves the circle list unchanged. An audio node is still
  added.

## Model

| member | source | states |
|---|---|---|
| ShaperWave.InsertionIndex | src/audio.rs:90-91 | the scan stops at the first node whose position is strictly greater than the new one: every earlier position is <= it, and the index is the list length when no node is greater |
| ShaperWave.InsertionIndexUnique | src/audio.rs:88-96 | the insert index is the unique point with every earlier position <= the new one and every later position greater |
| ShaperWave.AddNodeToWave | src/audio.rs:88-96 | a node is inserted exactly when some existing node lies strictly after it. The new node goes at the insertion index, the prefix and suffix are preserved, and the multiset grows by that one node. Otherwise the wave is unchanged |
| ShaperWave.AddNodeKeepsSorted | src/audio.rs:88-96 | inserting keeps the wave sorted by wave position |
| ShaperWave.EqualPositionLandsAfter | src/audio.rs:90-92 | a node at a position already present goes after the existing ones, which keep their indices |
| RealMath.Trunc | src/audio.rs:38 | truncation rounds toward zero: within one below a non-negative input and within one above a negative one |
| RealMath.Fract | src/audio.rs:38 | `fract` lies in [0, 1) for non-negative inputs and in (-1, 0] for negative ones, and differs from its input by a whole number |
| RealMath.FrameIndex | src/audio.rs:30-31 | the frame index is the floor of `wave_pos * len`, saturated to 0 when that product is negative |
| RealMath.ScaledIsProduct | src/audio.rs:30-31 | the repeated-addition form of `wave_pos * buf.len()` is exactly the product |
| RealMath.FrameIndexMonotone | src/audio.rs:30-31 | the node-to-frame map never decreases as the wave position grows |
| RealMath.FrameIndexBounds | src/audio.rs:30-31 | position <= 0 maps to frame 0, position <= 1 maps inside the buffer, and position 1 maps to its length |
| RealMath.LerpBetween | src/audio.rs:39 | an interpolated value with progress in [0, 1] lies between the two amplitudes |
| AudioBufGen.SortedIsRenderable | src/audio.rs:29-45 | a sorted wave starting at or before 0 and ending at or before 1 satisfies the generator's layout needs: first boundary 0, last inside the buffer, boundaries ascending |
| AudioBufGen.Segment | src/audio.rs:29-33 | every frame below the last boundary belongs to a node pair whose boundaries enclose it |
| AudioBufGen.SegmentSpans | src/audio.rs:29-33 | in a renderable wave each node pair owns exactly the frames between its two boundaries |
| AudioBufGen.Progress | src/audio.rs:38 | with a non-negative offset the per-frame progress lies in [0, 1) |
| AudioBufGen.FillInterval | src/audio.rs:30-46 | one pass of the outer loop writes the frames of one node pair. It ends at that pair's right boundary with the buffer generated up to there |
| AudioBufGen.WriteFrame | src/audio.rs:38-45 | one pass of the inner loop extends the generated prefix by one frame and updates the progress |
| AudioBufGen.PiecewiseLinear | src/audio.rs:25-51 | frames below the last node's boundary carry the interpolated wave on both channels and later frames are untouched. The result is the fractional progress one wave sample past the last frame written, in [0, 1) when the incoming offset is non-negative |
| AudioBufGen.NextOffsetInRange | src/audio.rs:50 | the returned offset lies in [0, 1) whenever the incoming offset is non-negative |
| AudioBufGen.SampleWithinSegment | src/audio.rs:38-39 | every written value lies between the amplitudes of its segment's two nodes |
| AudioBufGen.SegmentStartsAtLeftNode | src/audio.rs:38-39 | with no carried offset, the first frame of a non-empty segment carries its left node's amplitude |
| Audio.New | src/audio.rs:64-75 | the fresh state holds nodes (0,0) and (1,0), a cycle of 1024 samples, offset 0 and no device, and satisfies the state invariant |
| Audio.AddNode | src/audio.rs:167-169 | adding a node changes only the wave and keeps a valid state valid. It grows the wave by one exactly when the position is below 1, and then places the new node at the insertion index, keeps the prefix and suffix, and adds exactly that node to the multiset. Otherwise the state is unchanged |
| Audio.GreaterIffBelowEnd | src/audio.rs:90-92 | in a valid state some node lies after a position exactly when that position is below 1 |
| Audio.AddKeepsValid | src/audio.rs:88-96 | an insert keeps the wave sorted with (1,0) last and the first node at or before 0 |
| Audio.AddBelowEndGrows | src/audio.rs:90-94 | in a valid state every position below 1 adds a node |
| Audio.ValidRendersWholeBuffer | src/audio.rs:77-86 | every valid state renders into a buffer of any length and writes all of it |
| Audio.Render | src/audio.rs:77-86 | the buffer is cleared, then filled with the generated wave, and everything past the last boundary is silent. Only the stored offset changes, to the value the generator returns. A valid state stays valid |
| Audio.InitializeAudioOutputDevice | src/audio.rs:124-155 | on success the opened device replaces the old one and nothing else changes. On failure the error is returned |
| Audio.NewSoundEngine | src/audio.rs:110-114 | construction succeeds exactly when the device opens, and yields the fresh `AudioState::new` state holding that device, which is valid |
| Audio.DestroyAudioOutputDevice | src/audio.rs:158-160 | the device is dropped and the wave, cycle length and offset are kept |
| Audio.DestroyIsIdempotent | src/audio.rs:158-160 | destroying twice is destroying once |
| Audio.HandleAudioMaintenanceEvents | src/audio.rs:171-195 | only a left press with no bound device tries to open one, and a failed open changes nothing. Every other event, or a bound device, leaves the state as it was. The wave is never touched |
| Audio.MaintenanceIsIdempotent | src/audio.rs:171-195 | once a press has bound a device, repeating the event changes nothing |
| Geometry.DotProduct | src/rendering.rs:136-143 | the product reads the matrix column-major: each basis vector is sent to the matching column |
| Geometry.WorldToClip | src/rendering.rs:307-312 | the world-to-clip matrix is diagonal, scaling y by the world scale, x by the aspect ratio times that, and keeping z and w |
| Geometry.ClipToWorld | src/rendering.rs:313-318 | the clip-to-world matrix is diagonal, and each diagonal entry is the reciprocal of the world-to-clip one |
| Geometry.DotProductPicksColumn | src/rendering.rs:136-143 | `dot_product` reads the matrix column-major: basis vector i maps to column i |
| Geometry.DiagonalScales | src/rendering.rs:136-143 | a diagonal matrix scales each component independently |
| Geometry.TransformsAreInverse | src/rendering.rs:306-318 | the world-to-clip and clip-to-world matrices undo each other in both orders |
| Geometry.CursorClipLocation | src/rendering.rs:534-538 | the cursor's clip position has z = 0 and w = 1, and mapping it back yields the cursor |
| Geometry.ClipRoundTrip | src/rendering.rs:534-538 | clip to pixel and back is the identity on x and y |
| Geometry.ClipCorners | src/rendering.rs:534-538 | the left and right edges map to clip x -1 and +1, and the top and bottom edges to clip y +1 and -1 |
| Geometry.ClipInsideWindow | src/rendering.rs:534-538 | a cursor inside the window lands in the clip square [-1, 1]^2 |
| Circles.ModuloNeighbours | src/rendering.rs:466-470 | the modular index forms used for relinking are the cyclic successor and predecessor |
| Circles.BinarySearchX | src/rendering.rs:455-461 | on a strictly sorted list the search finds x exactly when some circle has it. Otherwise it returns the point that keeps the list sorted |
| Circles.AddCircleInstance | src/rendering.rs:441-475 | an empty list gets the circle with its placeholder link, and an exact x match leaves the list unchanged. Otherwise the circle is inserted in order with its own and its predecessor's links set and all else kept. The list stays strictly sorted |
| Circles.InsertionFacts | src/rendering.rs:461-470 | the insert and the two link writes leave the list sorted, with exactly the insertion shape |
| Circles.InsertKeepsCyclicLinks | src/rendering.rs:442-470 | once a list has two or more circles, every link names its cyclic right neighbour, and every insert keeps this |
| Circles.Hits | src/rendering.rs:499-503 | the per-circle test, prefilter included, accepts exactly the points strictly within the circle's radius |
| Circles.PrefilterIsSound | src/rendering.rs:500-503 | the bounding-box prefilter never rejects a point within the radius |
| Circles.CircleAtLocation | src/rendering.rs:495-510 | the result is the lowest index whose circle strictly contains the point, and None exactly when no circle does |
| Circles.ExpandCircle | src/rendering.rs:512-517 | every index, in range or not, fails with "index out of bounds" |
| Circles.AddCircleAtClipLocation | src/rendering.rs:540-558 | a click on a circle leaves the list unchanged, and a click elsewhere inserts a circle of scale 1 at the world position. The list stays sorted and grows by at most one |
| Rendering.IndexBufferIsConsistent | src/rendering.rs:69-134 | every triangle index names one of the 8 vertices and fits a u16. The background range lies inside the buffer |
| Rendering.New | src/rendering.rs:253-436 | the fresh state has no circles, cursor (0,0), the given size, aspect ratio height/width and world scale 0.1, and satisfies the state invariant (which fixes the clip-to-world transform) |
| Rendering.Resize | src/rendering.rs:523-532 | with both sides non-zero the state takes the new size, otherwise it is returned unchanged. Nothing but the size ever changes, and a valid state stays valid |
| Rendering.ResizeIsIdempotent | src/rendering.rs:523-532 | resizing twice to the same size is resizing once |
| Rendering.HandleWindowMaintenanceEvents | src/rendering.rs:717-768 | a cursor move records the cursor and changes nothing else; a resize or scale-factor change goes through `resize` with the new size; every other event leaves the state unchanged. The circle list is never touched and a valid state stays valid |
| Rendering.CursorClip | src/rendering.rs:534-538 | the state's cursor maps to a clip point that maps back to it |
| Rendering.AddCircleAtClip | src/rendering.rs:540-558 | only the circle list changes, and the state stays valid (sorted, cyclically linked) |
| Shaper.New | src/lib.rs:64-79 | the starting state is valid and pairs the fresh render state with the device-less `AudioState::new`, so it has no circles and no audio device |
| Shaper.WavePosOfClip | src/lib.rs:38 | the wave position w of a click satisfies 2w - 1 = clip x, so clip [-1, 1] lands in [0, 1] |
| Shaper.WavePosOfClipMapsRange | src/lib.rs:38 | the clip-to-wave map sends [-1, 1] onto [0, 1], monotonically |
| Shaper.WavePosIsCursorFraction | src/lib.rs:36-38 | the wave position a click produces is the cursor's fraction of the window width |
| Shaper.HandleShaperEvents | src/lib.rs:29-49 | only a left press does anything. It adds a circle at the cursor's clip position and a node at wave position (x+1)/2 with amplitude y, and validity is kept |
| Shaper.HandleEvent | src/lib.rs:51-60 | the composed step keeps the state valid. An event other than a left press leaves the audio alone and changes the render state exactly as window maintenance does, so the circles are kept. A left press adds the circle at the cursor's clip position and nothing else in the render state changes. It adds the node ((x + 1) / 2, y) to the audio state that audio maintenance left |
| Shaper.LeftPressStep | src/lib.rs:51-60 | a left press binds the device only when none was bound, and adds the node at the cursor's width fraction |
| Shaper.LeftPressInsideGrowsWave | src/lib.rs:35-38 | a left press with the cursor inside the window always grows the wave by one node |
| Shaper.ClickOnCircleStillAddsNode | src/lib.rs:35-38 | a click on an existing circle keeps the circle list but still grows the wave, so the two lists drift apart |

## Left out

- GPU work is not modelled: the wgpu device, surface, pipelines, buffers, shaders and the render pass of `State::render`. The draw ranges are covered only by `Rendering.IndexBufferIsConsistent`.
- Window plumbing is not modelled: `init_rendering`, window-id matching, `request_redraw`, and setting `ControlFlow::Exit` on close, Escape or out-of-memory. These only stop the loop or touch the GPU.
- The redraw branch's `resize(self.size)` on a lost surface is not modelled. It resizes to the current size, which changes no modelled state, so `RedrawRequested` is an identity here.
- `load_color`, set on cursor moves, is not modelled. It only colours the background.
- `tinyaudio` is not modelled: the device parameters, the callback thread, and the unsafe slice reinterpretation. The `Arc<Mutex<..>>` sharing is not modelled either; each operation is one critical section.
- Logging is not modelled.
- `f32` rounding, NaN, infinities, the `total_cmp` ordering of -0.0 and `sqrt` are not modelled, because values are exact reals. The radius test compares squared distances.
- `index.js` (the web page loader) is not part of this model.
- AudioBufGen.PiecewiseLinear requires ascending node boundaries, a first boundary at frame 0, a last boundary inside the buffer and `wavelen > 0`. This is narrower than what the code survives:
  - Boundaries that are not ascending never underflow or index out of range when the first is 0 and all lie inside the buffer. The running frame is never reset, so it always sits at or past the current interval's start, and a pair whose end is not past the running frame writes nothing. Such waves are not covered.
  - A wave of a single node makes no pass of the node loop, writes nothing and returns `fract(1 / wavelen)`, wherever the node sits. One at a position above 0 is excluded all the same.
  - In a wave of two or more nodes, a first boundary above 0 makes `curr_sample - interval_start` underflow as soon as the first pair writes a frame (its right boundary is above 0). That panics only with overflow checks on; a release build wraps and goes on.
  - A boundary past the buffer's end indexes out of range and panics.
  - A `wavelen` of 0 yields NaN.
  - Every valid `AudioState` meets the four conditions (`Audio.ValidRendersWholeBuffer`).
- Audio.Render inherits the same requirement.
- Rendering.New requires a non-zero window size. With a zero width the code divides by zero.
- Circles.AddCircleInstance requires the list to be strictly sorted by x, the order `binary_search_by` relies on. Every list the program builds meets it.
- Shaper.HandleEvent and Shaper.HandleShaperEvents require a valid state, which `Shaper.New` establishes and every step keeps.
