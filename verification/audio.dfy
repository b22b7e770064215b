/**
 * `AudioState` and the device life cycle of `SoundEngine` in src/audio.rs. The
 * `Mutex` around the state is left out: every operation here is one critical section.
 * The tinyaudio device is an opaque token; whether opening it succeeds is a parameter.
 */
module Audio {
  import opened Wrappers
  import opened RealMath
  import opened ShaperWave
  import opened AudioBufGen
  import opened Events

  /** An opened output device, opaque to the model. */
  datatype DeviceToken = DeviceToken(id: nat)

  /** Why opening the output device failed. */
  datatype DeviceError = DeviceUnavailable

  datatype AudioState = AudioState(
    device: Option<DeviceToken>,
    wave: seq<ShaperNode>,
    wavelenSamples: nat,
    frameBufOffset: real)

  /** Length of one wave cycle in samples, as `AudioState::new` sets it. */
  const WavelenSamples: nat := 1024

  /** The two end nodes `new` places; the last one bounds every later insertion. */
  const FirstNode: ShaperNode := ShaperNode(0.0, 0.0)
  const LastNode: ShaperNode := ShaperNode(1.0, 0.0)

  /**
   * What every reachable state satisfies: at least the two end nodes, sorted, nothing
   * before position 0 at the front, the end node (1, 0) last, a positive cycle length
   * and a carried offset in [0, 1).
   */
  predicate Valid(s: AudioState)
  {
    && |s.wave| >= 2
    && Sorted(s.wave)
    && s.wave[0].wavePos <= 0.0
    && s.wave[|s.wave| - 1] == LastNode
    && s.wavelenSamples > 0
    && 0.0 <= s.frameBufOffset < 1.0
  }

  /** `AudioState::new`: nodes (0,0) and (1,0), cycle of 1024 samples, no offset, no device. */
  function New(): (s: AudioState)
    ensures Valid(s)
    ensures s.device.None?
    ensures s.wave == [FirstNode, LastNode] && s.wavelenSamples == WavelenSamples && s.frameBufOffset == 0.0
  {
    AudioState(None, [FirstNode, LastNode], WavelenSamples, 0.0)
  }

  /** `add_node` / `add_node_to_wave` on the engine's state: only the wave changes. */
  function AddNode(s: AudioState, wavePos: real, amplitude: real): (r: AudioState)
    ensures r.device == s.device && r.wavelenSamples == s.wavelenSamples && r.frameBufOffset == s.frameBufOffset
    ensures Valid(s) ==> Valid(r)
    ensures Valid(s) ==> (wavePos < 1.0 <==> |r.wave| == |s.wave| + 1)
    ensures Valid(s) && 1.0 <= wavePos ==> r == s
    ensures Valid(s) && wavePos < 1.0 ==>
              var k := InsertionIndex(s.wave, wavePos);
              && r.wave[k] == ShaperNode(wavePos, amplitude)
              && r.wave[..k] == s.wave[..k] && r.wave[k + 1..] == s.wave[k..]
              && multiset(r.wave) == multiset(s.wave) + multiset{ShaperNode(wavePos, amplitude)}
  {
    var r := s.(wave := AddNodeToWave(s.wave, wavePos, amplitude));
    if Valid(s) then
      GreaterIffBelowEnd(s, wavePos);
      AddKeepsValid(s, wavePos, amplitude);
      r
    else r
  }

  /** In a valid state some node lies after `wavePos` exactly when `wavePos` is below 1. */
  lemma GreaterIffBelowEnd(s: AudioState, wavePos: real)
    requires Valid(s)
    ensures HasGreater(s.wave, wavePos) <==> wavePos < 1.0
  {
    if HasGreater(s.wave, wavePos) {
      var j :| 0 <= j < |s.wave| && wavePos < s.wave[j].wavePos;
      assert s.wave[j].wavePos <= s.wave[|s.wave| - 1].wavePos;
    } else {
      assert !(wavePos < s.wave[|s.wave| - 1].wavePos);
    }
  }

  /** Inserting a node keeps the state valid: sorted, and the end nodes stay in place. */
  lemma AddKeepsValid(s: AudioState, wavePos: real, amplitude: real)
    requires Valid(s)
    ensures Valid(s.(wave := AddNodeToWave(s.wave, wavePos, amplitude)))
  {
    AddNodeKeepsSorted(s.wave, wavePos, amplitude);
    if HasGreater(s.wave, wavePos) {
      NodeAt(s.wave, wavePos, amplitude, 0);
      NodeAt(s.wave, wavePos, amplitude, |s.wave|);
    }
  }

  /** In a valid state every position before the end node adds a node. */
  lemma AddBelowEndGrows(s: AudioState, wavePos: real, amplitude: real)
    requires Valid(s) && wavePos < 1.0
    ensures |AddNodeToWave(s.wave, wavePos, amplitude)| == |s.wave| + 1
  {
    GreaterIffBelowEnd(s, wavePos);
  }

  /** A valid state can render into a buffer of any length, and covers all of it. */
  lemma ValidRendersWholeBuffer(s: AudioState, len: nat)
    requires Valid(s)
    ensures Renderable(s.wave, len)
    ensures WrittenEnd(s.wave, len) == len
  {
    SortedIsRenderable(s.wave, len);
    FrameIndexBounds(s.wave[|s.wave| - 1].wavePos, len);
  }

  /**
   * `render`: clears the buffer, fills it through `piecewise_linear` and stores the
   * returned offset for the next call. Frames past the last node's boundary stay silent.
   */
  method Render(s: AudioState, buf: seq<Frame>) returns (s': AudioState, out: seq<Frame>)
    requires Renderable(s.wave, |buf|) && s.wavelenSamples > 0
    ensures s' == s.(frameBufOffset := s'.frameBufOffset)
    ensures |out| == |buf|
    ensures forall c :: 0 <= c < |out| ==> out[c].left == out[c].right
    ensures forall c :: 0 <= c < |out| && c < WrittenEnd(s.wave, |buf|) ==>
              out[c] == Mono(SampleAt(s.wave, |buf|, s.frameBufOffset, c))
    ensures forall c :: WrittenEnd(s.wave, |buf|) <= c < |out| ==> out[c] == Silence
    ensures s'.frameBufOffset == Fract(LastProgress(s.wave, |buf|, s.frameBufOffset) + 1.0 / s.wavelenSamples as real)
    ensures 0.0 <= s.frameBufOffset ==> 0.0 <= s'.frameBufOffset < 1.0
    ensures Valid(s) ==> Valid(s')
  {
    var cleared := seq(|buf|, _ => Silence);
    var offset;
    out, offset := PiecewiseLinear(cleared, s.wave, s.wavelenSamples, s.frameBufOffset);
    s' := s.(frameBufOffset := offset);
  }

  /**
   * `initialize_audio_output_device`: on success the opened device replaces whatever was
   * there; on failure the error is returned and the state is untouched.
   */
  function InitializeAudioOutputDevice(s: AudioState, opening: Option<DeviceToken>): (r: Result<AudioState, DeviceError>)
    ensures r.Success? <==> opening.Some?
    ensures r.Success? ==> r.value == s.(device := opening)
    ensures r.Failure? ==> r.error == DeviceUnavailable
  {
    match opening
    case Some(token) => Success(s.(device := Some(token)))
    case None => Failure(DeviceUnavailable)
  }

  /** `SoundEngine::new`: a fresh state whose device must open, or the error. */
  function NewSoundEngine(opening: Option<DeviceToken>): (r: Result<AudioState, DeviceError>)
    ensures r.Success? <==> opening.Some?
    ensures r.Success? ==> Valid(r.value) && r.value.device == opening
    ensures r.Success? ==> r.value == New().(device := opening)
  {
    InitializeAudioOutputDevice(New(), opening)
  }

  /** `destroy_audio_output_device`: drops the device, whatever was there. */
  function DestroyAudioOutputDevice(s: AudioState): (r: AudioState)
    ensures r.device.None?
    ensures r.wave == s.wave && r.wavelenSamples == s.wavelenSamples && r.frameBufOffset == s.frameBufOffset
  {
    s.(device := None)
  }

  lemma DestroyIsIdempotent(s: AudioState)
    ensures DestroyAudioOutputDevice(DestroyAudioOutputDevice(s)) == DestroyAudioOutputDevice(s)
  {
  }

  /**
   * `handle_audio_maintenance_events`: a left press opens the device only when none is
   * bound; a failed open is ignored. Any other event changes nothing.
   */
  function HandleAudioMaintenanceEvents(s: AudioState, ev: Event, opening: Option<DeviceToken>): (r: AudioState)
    ensures !IsLeftPress(ev) ==> r == s
    ensures s.device.Some? ==> r == s
    ensures IsLeftPress(ev) && s.device.None? ==> r == s.(device := opening)
    ensures r.wave == s.wave && r.frameBufOffset == s.frameBufOffset
  {
    if IsLeftPress(ev) && s.device.None? then
      match InitializeAudioOutputDevice(s, opening)
      case Success(s') => s'
      case Failure(_) => s
    else
      s
  }

  /** Once a device is bound, further presses are no-ops: binding is idempotent. */
  lemma MaintenanceIsIdempotent(s: AudioState, ev: Event, opening: Option<DeviceToken>, again: Option<DeviceToken>)
    requires opening.Some?
    ensures var once := HandleAudioMaintenanceEvents(s, ev, opening);
            HandleAudioMaintenanceEvents(once, ev, again) == once
  {
  }
}
