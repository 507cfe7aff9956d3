/**
 * Device lookup and the voice-activity segmentation of continuous mode,
 * from `src/stt/audio.py`. Audio frames arrive as values; the RMS energy
 * of each frame is given with it rather than computed in floating point.
 */
module Audio {
  import opened Wrappers
  import opened Text
  import Client

  // ---------------------------------------------------------------------
  // resolve_device

  /** The two fields of a `sounddevice` device entry that the lookup reads. */
  datatype DeviceInfo = DeviceInfo(name: string, maxInputChannels: int)

  /** A device argument: an index, a name fragment, or anything else (such as None). */
  datatype DeviceRef = ByIndex(index: int) | ByName(query: string) | Neither

  /** A device is chosen for a name query when its lower-cased name contains the query and it can record. */
  predicate Matches(query: string, d: DeviceInfo) {
    Contains(Lower(d.name), query) && d.maxInputChannels > 0
  }

  /**
   * `resolve_device(device_id)`: `devices` is the list `query_devices()`
   * returns and `defaultInput` the system's default input device.
   */
  method ResolveDevice(device: DeviceRef, devices: seq<DeviceInfo>, defaultInput: int) returns (idx: int)
    ensures device.ByIndex? ==> idx == device.index
    ensures device.ByName? && (exists i :: 0 <= i < |devices| && Matches(device.query, devices[i])) ==>
      0 <= idx < |devices| && Matches(device.query, devices[idx])
      && forall j :: 0 <= j < idx ==> !Matches(device.query, devices[j])
    ensures device.ByName? && (forall i :: 0 <= i < |devices| ==> !Matches(device.query, devices[i])) ==>
      idx == defaultInput
    ensures device.Neither? ==> idx == defaultInput
  {
    match device {
      case ByIndex(index) =>
        return index;
      case ByName(query) =>
        var i := 0;
        while i < |devices|
          invariant 0 <= i <= |devices|
          invariant forall j :: 0 <= j < i ==> !Matches(query, devices[j])
        {
          if Contains(Lower(devices[i].name), query) && devices[i].maxInputChannels > 0 {
            return i;
          }
          i := i + 1;
        }
      case Neither =>
    }
    return defaultInput;
  }

  /** The device table of the lookup tests: an output-only card, a USB microphone and two mixer devices. */
  const TestDevices: seq<DeviceInfo> := [
    DeviceInfo("HDA Intel PCH: ALC1220", 0),
    DeviceInfo("USB PnP Sound Device", 1),
    DeviceInfo("pulse", 32),
    DeviceInfo("default", 32)
  ]

  /**
   * On the test table, `pulse` first matches device 2, the fragment `usb`
   * first matches device 1, and `hda` never picks the output-only device 0,
   * so by the contract of `ResolveDevice` the lookups return 2, 1 and not 0.
   */
  lemma TestDeviceLookups()
    ensures Matches("pulse", TestDevices[2]) && !Matches("pulse", TestDevices[0]) && !Matches("pulse", TestDevices[1])
    ensures Matches("usb", TestDevices[1]) && !Matches("usb", TestDevices[0])
    ensures !Matches("hda", TestDevices[0])
  {
    UsbLookups();
    assert Lower("pulse") == "pulse";
    assert OccursAt("pulse", "pulse", 0);
  }

  lemma UsbLookups()
    ensures Contains(Lower("USB PnP Sound Device"), "usb")
    ensures !Contains(Lower("USB PnP Sound Device"), "pulse")
  {
    LowerUsbName();
    var usb := "usb pnp sound device";
    assert OccursAt(usb, "usb", 0);
    NoPairNoMatch(usb, "pulse");
  }

  lemma LowerUsbName()
    ensures Lower("USB PnP Sound Device") == "usb pnp sound device"
  {
  }

  /** A needle whose first two characters never appear side by side in the haystack does not occur in it. */
  lemma NoPairNoMatch(haystack: string, needle: string)
    requires |needle| >= 2
    requires forall j :: 0 <= j < |haystack| - 1 ==> haystack[j] != needle[0] || haystack[j + 1] != needle[1]
    ensures !Contains(haystack, needle)
  {
    forall i | 0 <= i <= |haystack| - |needle|
      ensures !OccursAt(haystack, needle, i)
    {
      var window := haystack[i..i + |needle|];
      assert window[0] == haystack[i] && window[1] == haystack[i + 1];
    }
  }

  // ---------------------------------------------------------------------
  // continuous_mode: voice-activity segmentation

  /** `SILENCE_THRESHOLD`: a frame is speech when its RMS is strictly above it. */
  const SILENCE_THRESHOLD: real := 0.01
  /** `int(SILENCE_DURATION / chunk_duration)` = int(1.5 / 0.1): quiet frames that end an utterance. */
  const SILENCE_LIMIT: nat := 15

  /** One block from the input stream, with its RMS energy. */
  datatype Frame = Frame(samples: seq<real>, rms: real)

  /** The three values `continuous_mode` derives before listening. */
  datatype Config = Config(threshold: real, silenceLimit: nat, minSamples: nat)

  /** The configuration at a device's native sample rate: `min_frames` is `int(MIN_AUDIO_DURATION * native_rate)`, half a second of samples. */
  function ContinuousConfig(nativeRate: nat): (cfg: Config)
    ensures cfg.threshold == SILENCE_THRESHOLD && cfg.silenceLimit == SILENCE_LIMIT
    ensures 2 * cfg.minSamples <= nativeRate < 2 * cfg.minSamples + 2
  {
    Config(SILENCE_THRESHOLD, SILENCE_LIMIT, nativeRate / 2)
  }

  predicate IsSpeech(cfg: Config, f: Frame) {
    f.rms > cfg.threshold
  }

  /** `np.concatenate(audio_buffer).flatten()`: all samples of the buffered frames, in order. */
  function Concat(frames: seq<Frame>): seq<real>
  {
    if frames == [] then [] else Concat(frames[..|frames| - 1]) + frames[|frames| - 1].samples
  }

  /** The state `continuous_mode` keeps between frames. */
  datatype VadState = VadState(buffer: seq<Frame>, silenceFrames: nat, hasSpeech: bool)

  const Idle: VadState := VadState([], 0, false)

  /**
   * The state between frames. Idle: nothing is buffered and the counter is 0.
   * Speaking: the buffer starts with a speech frame, its last
   * `silenceFrames` frames are quiet and the frame before them is speech,
   * and the counter is below the limit (or 0 when the limit is 0).
   */
  predicate Inv(cfg: Config, s: VadState) {
    && (!s.hasSpeech ==> s.buffer == [] && s.silenceFrames == 0)
    && (s.hasSpeech ==>
          && s.silenceFrames < |s.buffer|
          && IsSpeech(cfg, s.buffer[0])
          && IsSpeech(cfg, s.buffer[|s.buffer| - 1 - s.silenceFrames])
          && (forall i :: |s.buffer| - s.silenceFrames <= i < |s.buffer| ==> !IsSpeech(cfg, s.buffer[i]))
          && (s.silenceFrames == 0 || s.silenceFrames < cfg.silenceLimit))
  }

  /** `flush_buffer()`: the audio handed to transcription, if any. */
  function FlushOf(cfg: Config, buffer: seq<Frame>): (handed: Option<seq<real>>)
    ensures buffer == [] ==> handed == None
    ensures handed.Some? ==> handed.value == Concat(buffer) && |handed.value| >= cfg.minSamples
    ensures buffer != [] && |Concat(buffer)| >= cfg.minSamples ==> handed == Some(Concat(buffer))
  {
    if buffer == [] then None
    else if |Concat(buffer)| >= cfg.minSamples then Some(Concat(buffer))
    else None
  }

  datatype StepResult = StepResult(state: VadState, handed: Option<seq<real>>)

  /** One iteration of the `while True` loop of `continuous_mode`. */
  function Step(cfg: Config, s: VadState, f: Frame): (r: StepResult)
    ensures IsSpeech(cfg, f) ==> r.handed == None && r.state == VadState(s.buffer + [f], 0, true)
    ensures !IsSpeech(cfg, f) && !s.hasSpeech ==> r == StepResult(s, None)
    ensures r.state.hasSpeech ==> r.state.buffer == s.buffer + [f]
    ensures s.hasSpeech && !IsSpeech(cfg, f) ==> (r.state.hasSpeech <==> s.silenceFrames + 1 < cfg.silenceLimit)
    ensures s.hasSpeech && !IsSpeech(cfg, f) && r.state.hasSpeech ==> r.state.silenceFrames == s.silenceFrames + 1
    ensures s.hasSpeech && !IsSpeech(cfg, f) && s.silenceFrames + 1 >= cfg.silenceLimit ==> r == StepResult(Idle, FlushOf(cfg, s.buffer + [f]))
    ensures r.handed.Some? ==>
      && s.hasSpeech && !IsSpeech(cfg, f) && r.state == Idle
      && r.handed.value == Concat(s.buffer + [f]) && |r.handed.value| >= cfg.minSamples
  {
    if IsSpeech(cfg, f) then
      StepResult(VadState(s.buffer + [f], 0, true), None)
    else if s.hasSpeech then
      var buffer := s.buffer + [f];
      var quiet := s.silenceFrames + 1;
      if quiet >= cfg.silenceLimit then StepResult(Idle, FlushOf(cfg, buffer))
      else StepResult(VadState(buffer, quiet, true), None)
    else
      StepResult(s, None)
  }

  /** Every iteration keeps the state invariant. */
  lemma StepKeepsInv(cfg: Config, s: VadState, f: Frame)
    requires Inv(cfg, s)
    ensures Inv(cfg, Step(cfg, s, f).state)
  {
    var t := Step(cfg, s, f).state;
    if !IsSpeech(cfg, f) && s.hasSpeech && t.hasSpeech {
      assert t.buffer == s.buffer + [f];
      assert t.buffer[0] == s.buffer[0];
      assert t.buffer[|t.buffer| - 1 - t.silenceFrames] == s.buffer[|s.buffer| - 1 - s.silenceFrames];
    }
  }

  datatype RunResult = RunResult(state: VadState, handed: seq<seq<real>>)

  function Emitted(o: Option<seq<real>>): seq<seq<real>>
  {
    if o.Some? then [o.value] else []
  }

  /** The state after `frames`, starting from `s`, and the audio handed to transcription on the way. */
  function Feed(cfg: Config, s: VadState, frames: seq<Frame>): (r: RunResult)
    ensures frames == [] ==> r == RunResult(s, [])
    ensures |r.handed| <= |frames|
    ensures forall k :: 0 <= k < |r.handed| ==> |r.handed[k]| >= cfg.minSamples
  {
    if frames == [] then RunResult(s, [])
    else
      var r := Feed(cfg, s, frames[..|frames| - 1]);
      var step := Step(cfg, r.state, frames[|frames| - 1]);
      RunResult(step.state, r.handed + Emitted(step.handed))
  }

  /** The invariant holds after any sequence of frames. */
  lemma {:induction false} FeedKeepsInv(cfg: Config, s: VadState, frames: seq<Frame>)
    requires Inv(cfg, s)
    ensures Inv(cfg, Feed(cfg, s, frames).state)
    decreases |frames|
  {
    if frames != [] {
      FeedKeepsInv(cfg, s, frames[..|frames| - 1]);
      StepKeepsInv(cfg, Feed(cfg, s, frames[..|frames| - 1]).state, frames[|frames| - 1]);
    }
  }

  /** Feeding two runs of frames one after the other is feeding their concatenation. */
  lemma {:induction false} FeedAppend(cfg: Config, s: VadState, a: seq<Frame>, b: seq<Frame>)
    ensures Feed(cfg, s, a + b)
      == RunResult(Feed(cfg, Feed(cfg, s, a).state, b).state,
                   Feed(cfg, s, a).handed + Feed(cfg, Feed(cfg, s, a).state, b).handed)
    decreases |b|
  {
    if b == [] {
      assert a + b == a;
    } else {
      var init := b[..|b| - 1];
      assert (a + b)[..|a + b| - 1] == a + init;
      assert (a + b)[|a + b| - 1] == b[|b| - 1];
      FeedAppend(cfg, s, a, init);
    }
  }

  predicate AllQuiet(cfg: Config, frames: seq<Frame>) {
    forall i :: 0 <= i < |frames| ==> !IsSpeech(cfg, frames[i])
  }

  predicate AllSpeech(cfg: Config, frames: seq<Frame>) {
    forall i :: 0 <= i < |frames| ==> IsSpeech(cfg, frames[i])
  }

  /** Quiet frames while idle are dropped: nothing is buffered and nothing is handed on. */
  lemma {:induction false} QuietWhileIdle(cfg: Config, frames: seq<Frame>)
    requires AllQuiet(cfg, frames)
    ensures Feed(cfg, Idle, frames) == RunResult(Idle, [])
    decreases |frames|
  {
    if frames != [] {
      QuietWhileIdle(cfg, frames[..|frames| - 1]);
    }
  }

  /** Speech frames are all buffered, in order, and leave the counter at 0. */
  lemma {:induction false} FeedSpeech(cfg: Config, s: VadState, frames: seq<Frame>)
    requires frames != [] && AllSpeech(cfg, frames)
    ensures Feed(cfg, s, frames) == RunResult(VadState(s.buffer + frames, 0, true), [])
    decreases |frames|
  {
    var init := frames[..|frames| - 1];
    if init != [] {
      FeedSpeech(cfg, s, init);
    }
    assert s.buffer + init + [frames[|frames| - 1]] == s.buffer + frames;
  }

  /** Fewer quiet frames than the limit, after speech, are buffered and counted. */
  lemma {:induction false} FeedQuietBelowLimit(cfg: Config, buffer: seq<Frame>, frames: seq<Frame>)
    requires AllQuiet(cfg, frames) && |frames| < cfg.silenceLimit
    ensures Feed(cfg, VadState(buffer, 0, true), frames) == RunResult(VadState(buffer + frames, |frames|, true), [])
    decreases |frames|
  {
    if frames != [] {
      var init := frames[..|frames| - 1];
      FeedQuietBelowLimit(cfg, buffer, init);
      assert buffer + init + [frames[|frames| - 1]] == buffer + frames;
    } else {
      assert buffer + frames == buffer;
    }
  }

  /** The `silenceLimit`-th quiet frame after speech ends the utterance: the buffer is flushed and the engine is idle. */
  lemma QuietReachesLimit(cfg: Config, buffer: seq<Frame>, frames: seq<Frame>)
    requires cfg.silenceLimit >= 1 && AllQuiet(cfg, frames) && |frames| == cfg.silenceLimit
    ensures Feed(cfg, VadState(buffer, 0, true), frames) == RunResult(Idle, Emitted(FlushOf(cfg, buffer + frames)))
  {
    var init := frames[..|frames| - 1];
    FeedQuietBelowLimit(cfg, buffer, init);
    assert buffer + init + [frames[|frames| - 1]] == buffer + frames;
  }

  /** Leading quiet frames are dropped and the speech that follows is buffered. */
  lemma SpeechAfterQuiet(cfg: Config, before: seq<Frame>, speech: seq<Frame>)
    requires AllQuiet(cfg, before) && speech != [] && AllSpeech(cfg, speech)
    ensures Feed(cfg, Idle, before + speech) == RunResult(VadState(speech, 0, true), [])
  {
    QuietWhileIdle(cfg, before);
    FeedSpeech(cfg, Idle, speech);
    assert Idle.buffer + speech == speech;
    FeedAppend(cfg, Idle, before, speech);
  }

  /** Both parts of a run of quiet frames are quiet. */
  lemma QuietParts(cfg: Config, frames: seq<Frame>, n: nat)
    requires AllQuiet(cfg, frames) && n <= |frames|
    ensures AllQuiet(cfg, frames[..n]) && AllQuiet(cfg, frames[n..])
  {
    assert forall i :: 0 <= i < n ==> frames[..n][i] == frames[i];
    assert forall i :: 0 <= i < |frames| - n ==> frames[n..][i] == frames[n + i];
  }

  /** A run that ends idle, followed by one that stays idle and hands on nothing, hands on what the first did. */
  lemma IdleTail(cfg: Config, s: VadState, a: seq<Frame>, b: seq<Frame>, handed: seq<seq<real>>)
    requires Feed(cfg, s, a) == RunResult(Idle, handed)
    requires Feed(cfg, Idle, b) == RunResult(Idle, [])
    ensures Feed(cfg, s, a + b) == RunResult(Idle, handed)
  {
    FeedAppend(cfg, s, a, b);
    assert handed + [] == handed;
  }

  /** Enough quiet frames after speech end the segment; quiet frames after that are dropped. */
  lemma SilenceEndsSegment(cfg: Config, speech: seq<Frame>, after: seq<Frame>)
    requires cfg.silenceLimit >= 1 && AllQuiet(cfg, after) && |after| >= cfg.silenceLimit
    ensures Feed(cfg, VadState(speech, 0, true), after)
      == RunResult(Idle, Emitted(FlushOf(cfg, speech + after[..cfg.silenceLimit])))
  {
    var n := cfg.silenceLimit;
    var ending, rest := after[..n], after[n..];
    QuietParts(cfg, after, n);
    QuietReachesLimit(cfg, speech, ending);
    QuietWhileIdle(cfg, rest);
    IdleTail(cfg, VadState(speech, 0, true), ending, rest, Emitted(FlushOf(cfg, speech + ending)));
    assert ending + rest == after;
  }

  /**
   * An utterance: quiet frames, then speech, then at least `silenceLimit`
   * quiet frames. It yields exactly one segment, made of the speech and the
   * first `silenceLimit` quiet frames after it, and only if that segment
   * is long enough; the engine is idle again afterwards.
   */
  lemma UtteranceYieldsOneSegment(cfg: Config, before: seq<Frame>, speech: seq<Frame>, after: seq<Frame>)
    requires cfg.silenceLimit >= 1
    requires AllQuiet(cfg, before) && speech != [] && AllSpeech(cfg, speech)
    requires AllQuiet(cfg, after) && |after| >= cfg.silenceLimit
    ensures Feed(cfg, Idle, before + speech + after)
      == RunResult(Idle, Emitted(FlushOf(cfg, speech + after[..cfg.silenceLimit])))
  {
    SpeechAfterQuiet(cfg, before, speech);
    SilenceEndsSegment(cfg, speech, after);
    FeedAppend(cfg, Idle, before + speech, after);
  }

  /** All segments `continuous_mode` hands to transcription for `frames`, ending with the flush on interrupt. */
  function Segments(cfg: Config, frames: seq<Frame>): seq<seq<real>>
  {
    var r := Feed(cfg, Idle, frames);
    r.handed + Emitted(FlushOf(cfg, r.state.buffer))
  }

  /** The texts `on_segment` receives: the non-empty result of `save_and_transcribe` for each segment, where `reply` is the daemon's answer. */
  function Delivered(segments: seq<seq<real>>, reply: seq<real> -> string): seq<string>
  {
    if segments == [] then []
    else
      var text := Client.TextOfReply(reply(segments[|segments| - 1]));
      Delivered(segments[..|segments| - 1], reply) + if text != "" then [text] else []
  }

  /** `on_segment` never sees an empty text or an error reply. */
  lemma {:induction false} DeliveredAreTranscripts(segments: seq<seq<real>>, reply: seq<real> -> string)
    ensures |Delivered(segments, reply)| <= |segments|
    ensures forall k :: 0 <= k < |Delivered(segments, reply)| ==>
      Delivered(segments, reply)[k] != "" && !StartsWith(Delivered(segments, reply)[k], "ERROR:")
    decreases |segments|
  {
    if segments != [] {
      DeliveredAreTranscripts(segments[..|segments| - 1], reply);
    }
  }

  /** One more frame extends the run by one step of the loop. */
  lemma FeedNext(cfg: Config, frames: seq<Frame>, i: nat, before: RunResult, after: StepResult)
    requires i < |frames|
    requires Feed(cfg, Idle, frames[..i]) == before
    requires Step(cfg, before.state, frames[i]) == after
    ensures Feed(cfg, Idle, frames[..i + 1]) == RunResult(after.state, before.handed + Emitted(after.handed))
  {
    assert frames[..i + 1][..i] == frames[..i];
  }

  lemma DeliveredNext(segments: seq<seq<real>>, segment: seq<real>, reply: seq<real> -> string)
    ensures var text := Client.TextOfReply(reply(segment));
      Delivered(segments + [segment], reply) == Delivered(segments, reply) + if text != "" then [text] else []
  {
    assert (segments + [segment])[..|segments|] == segments;
  }

  /** The state of the segmentation loop of `continuous_mode`, updated in place frame by frame. */
  class Segmenter {
    const cfg: Config
    var buffer: seq<Frame>
    var silenceFrames: nat
    var hasSpeech: bool

    function State(): VadState
      reads this
    {
      VadState(buffer, silenceFrames, hasSpeech)
    }

    ghost predicate Valid()
      reads this
    {
      Inv(cfg, State())
    }

    constructor (cfg: Config)
      ensures this.cfg == cfg && State() == Idle && Valid()
    {
      this.cfg := cfg;
      buffer, silenceFrames, hasSpeech := [], 0, false;
    }

    /** `flush_buffer()`: hands the buffered audio on if it is long enough, and empties the buffer either way. */
    method Flush() returns (handed: Option<seq<real>>)
      modifies this`buffer
      ensures handed == FlushOf(cfg, old(buffer))
      ensures buffer == []
    {
      if buffer == [] {
        return None;
      }
      var raw := Concat(buffer);
      handed := if |raw| >= cfg.minSamples then Some(raw) else None;
      buffer := [];
    }

    /** One iteration of the listening loop, for the frame `f`. */
    method Observe(f: Frame) returns (handed: Option<seq<real>>)
      requires Valid()
      modifies this
      ensures Valid()
      ensures StepResult(State(), handed) == Step(cfg, old(State()), f)
      ensures IsSpeech(cfg, f) ==>
        hasSpeech && silenceFrames == 0 && buffer == old(buffer) + [f] && handed == None
      ensures !IsSpeech(cfg, f) && !old(hasSpeech) ==> unchanged(this) && handed == None
      ensures !IsSpeech(cfg, f) && old(hasSpeech) && old(silenceFrames) + 1 < cfg.silenceLimit ==>
        hasSpeech && silenceFrames == old(silenceFrames) + 1 && buffer == old(buffer) + [f] && handed == None
      ensures !IsSpeech(cfg, f) && old(hasSpeech) && old(silenceFrames) + 1 >= cfg.silenceLimit ==>
        State() == Idle && handed == FlushOf(cfg, old(buffer) + [f])
    {
      StepKeepsInv(cfg, State(), f);
      handed := None;
      if f.rms > cfg.threshold {
        hasSpeech := true;
        silenceFrames := 0;
        buffer := buffer + [f];
      } else if hasSpeech {
        silenceFrames := silenceFrames + 1;
        buffer := buffer + [f];
        if silenceFrames >= cfg.silenceLimit {
          handed := Flush();
          silenceFrames := 0;
          hasSpeech := false;
        }
      }
    }
  }

  /**
   * The end of `flush_buffer()` once a segment may have been handed on: the
   * segment is transcribed and a non-empty text goes to `on_segment`.
   */
  method Deliver(handed: seq<seq<real>>, texts: seq<string>, out: Option<seq<real>>, reply: seq<real> -> string)
    returns (handed': seq<seq<real>>, texts': seq<string>)
    requires texts == Delivered(handed, reply)
    ensures handed' == handed + Emitted(out)
    ensures texts' == Delivered(handed', reply)
  {
    handed', texts' := handed, texts;
    if out.Some? {
      DeliveredNext(handed, out.value, reply);
      handed' := handed + [out.value];
      var text := Client.TextOfReply(reply(out.value));
      if text != "" {
        texts' := texts + [text];
      }
    } else {
      assert handed + Emitted(out) == handed;
    }
  }

  /**
   * `continuous_mode` over the frames that arrive before the interrupt:
   * each frame goes through the loop, and the interrupt flushes what is
   * left. `reply` is the daemon's answer for a segment. Returns the
   * segments handed to transcription and the texts passed to `on_segment`.
   */
  method ContinuousMode(cfg: Config, frames: seq<Frame>, reply: seq<real> -> string)
    returns (handed: seq<seq<real>>, texts: seq<string>)
    ensures handed == Segments(cfg, frames)
    ensures texts == Delivered(handed, reply)
  {
    var engine := new Segmenter(cfg);
    handed, texts := [], [];
    var i := 0;
    while i < |frames|
      invariant 0 <= i <= |frames|
      invariant engine.cfg == cfg && engine.Valid()
      invariant Feed(cfg, Idle, frames[..i]) == RunResult(engine.State(), handed)
      invariant texts == Delivered(handed, reply)
    {
      ghost var before := RunResult(engine.State(), handed);
      var out := engine.Observe(frames[i]);
      FeedNext(cfg, frames, i, before, StepResult(engine.State(), out));
      handed, texts := Deliver(handed, texts, out, reply);
      i := i + 1;
    }
    assert frames[..i] == frames;
    var out := engine.Flush();
    handed, texts := Deliver(handed, texts, out, reply);
  }
}
