/**
 * `ImprovedVAD` of voice_recognition_app.py: an energy-based speech segmenter.
 * Per audio chunk it records the chunk's energy, decides voiced/unvoiced with a
 * 2-of-the-last-3 hysteresis, and moves between silence and speech, buffering
 * every chunk from the start of speech until enough trailing silence ends it.
 *
 * The energy arithmetic is abstracted: each frame carries its energy, the raw
 * voiced flag (smoothed energy above the dynamic threshold) and the noise-floor
 * estimate the percentile would give. Durations are compared in samples.
 */
module Vad {
  import opened Common

  /** Samples per millisecond at 16 kHz: `int(ms * 16000 / 1000)`. */
  function SamplesOf(ms: nat): nat
  {
    16 * ms
  }

  /** The three durations of the segmenter, in samples. */
  datatype Config = Config(padSamples: nat, minSpeechSamples: nat, maxSilenceSamples: nat)

  /** The configuration the application builds: 800 ms pad, 200 ms minimum speech, 1500 ms maximum silence. */
  const AppConfig: Config := Config(SamplesOf(800), SamplesOf(200), SamplesOf(1500))

  /** Bounds of the two histories. */
  const EnergyHistoryLength: nat := 20
  const ActivityWindow: nat := 10

  /** The noise floor a new segmenter starts from. */
  const InitialNoiseFloor: real := 0.01

  /** One audio chunk as the segmenter sees it. */
  datatype Frame = Frame(chunk: seq<real>, energy: real, voiced: bool, floorEstimate: real)

  /** The segmenter's fields. */
  datatype VadState = VadState(
    isSpeech: bool,
    speechBuffer: seq<real>,
    silenceCounter: nat,
    speechCounter: nat,
    energyHistory: seq<real>,
    activityHistory: seq<bool>,
    noiseFloor: real)

  /** A new segmenter. */
  const InitState: VadState := VadState(false, [], 0, 0, [], [], InitialNoiseFloor)

  /** Which end condition fired. */
  datatype EndReason = PadReached | MaxSilence

  /** What one call yields: the start of speech, or its end with the buffered waveform. */
  datatype Event = Start | End(waveform: seq<real>, reason: EndReason)

  /** The samples yielded with an event: none with a start. */
  function Payload(e: Event): seq<real>
  {
    match e
    case Start => []
    case End(w, _) => w
  }

  /** Append, then drop the oldest element when the list outgrew its bound. */
  function PushBounded<T>(h: seq<T>, x: T, bound: nat): (r: seq<T>)
    requires bound >= 1
    ensures |h| <= bound ==> |r| <= bound
    ensures |r| >= 1 && r[|r| - 1] == x
    ensures |h + [x]| <= bound ==> r == h + [x]
    ensures |h + [x]| > bound ==> r == (h + [x])[1..]
  {
    var appended := h + [x];
    if |appended| > bound then appended[1..] else appended
  }

  /** 1 for a voiced flag, 0 otherwise. */
  function Flag(b: bool): nat
  {
    if b then 1 else 0
  }

  /** `_is_speech_energy`'s answer from the updated activity history and the raw flag. */
  function Hysteresis(activity: seq<bool>, raw: bool): bool
  {
    if |activity| >= 3 && Flag(activity[|activity| - 3]) + Flag(activity[|activity| - 2]) + Flag(activity[|activity| - 1]) >= 2
    then true
    else raw
  }

  /** The voiced decision for a frame in a state. */
  function Decision(s: VadState, f: Frame): bool
  {
    Hysteresis(PushBounded(s.activityHistory, f.voiced, ActivityWindow), f.voiced)
  }

  /**
   * A voiced raw flag always counts as speech; an unvoiced one counts as speech
   * exactly when the two previous flags were both voiced.
   */
  lemma HysteresisDecision(s: VadState, f: Frame)
    requires |s.activityHistory| <= ActivityWindow
    ensures f.voiced ==> Decision(s, f)
    ensures !f.voiced ==> (Decision(s, f) <==>
      var h := s.activityHistory; |h| >= 2 && h[|h| - 2] && h[|h| - 1])
  {
    var h := s.activityHistory;
    var a := PushBounded(h, f.voiced, ActivityWindow);
    if |h| >= 2 {
      assert a[|a| - 3] == h[|h| - 2] && a[|a| - 2] == h[|h| - 1];
    }
  }

  /** One call of the segmenter: the new state and the event it yields, if any. */
  function Step(cfg: Config, s: VadState, f: Frame): (VadState, Option<Event>)
  {
    var energy := PushBounded(s.energyHistory, f.energy, EnergyHistoryLength);
    var floor := if !s.isSpeech && |energy| > 5 then f.floorEstimate else s.noiseFloor;
    var activity := PushBounded(s.activityHistory, f.voiced, ActivityWindow);
    var n := |f.chunk|;
    if Hysteresis(activity, f.voiced) then
      if !s.isSpeech then
        (VadState(true, f.chunk, 0, n, energy, activity, floor), Some(Start))
      else
        (VadState(true, s.speechBuffer + f.chunk, 0, s.speechCounter + n, energy, activity, floor), None)
    else if s.isSpeech then
      var buffer := s.speechBuffer + f.chunk;
      var silence := s.silenceCounter + n;
      var longEnough := |buffer| >= cfg.minSpeechSamples;
      if longEnough && silence >= cfg.padSamples then
        (VadState(false, [], 0, 0, energy, [], floor), Some(End(buffer, PadReached)))
      else if longEnough && silence >= cfg.maxSilenceSamples then
        (VadState(false, [], 0, 0, energy, [], floor), Some(End(buffer, MaxSilence)))
      else
        (VadState(true, buffer, silence, s.speechCounter, energy, activity, floor), None)
    else
      (s.(energyHistory := energy, activityHistory := activity, noiseFloor := floor), None)
  }

  /** The state invariant: bounded histories, counters within the buffer, and an idle state holding nothing. */
  predicate Inv(s: VadState)
  {
    && |s.energyHistory| <= EnergyHistoryLength
    && |s.activityHistory| <= ActivityWindow
    && s.silenceCounter <= |s.speechBuffer|
    && s.speechCounter <= |s.speechBuffer|
    && (!s.isSpeech ==> s.speechBuffer == [] && s.silenceCounter == 0 && s.speechCounter == 0)
  }

  /** A new segmenter satisfies the invariant. */
  lemma InitInv()
    ensures Inv(InitState)
  {
  }

  /** Every call preserves the invariant. */
  lemma StepInv(cfg: Config, s: VadState, f: Frame)
    requires Inv(s)
    ensures Inv(Step(cfg, s, f).0)
  {
  }

  /** The noise floor is only re-estimated outside speech. */
  lemma NoiseFloorFrozenInSpeech(cfg: Config, s: VadState, f: Frame)
    requires s.isSpeech
    ensures Step(cfg, s, f).0.noiseFloor == s.noiseFloor
  {
  }

  /** A start is yielded exactly on a voiced decision outside speech, and the buffer then holds just that chunk. */
  lemma StartEvent(cfg: Config, s: VadState, f: Frame)
    ensures Step(cfg, s, f).1 == Some(Start) <==> !s.isSpeech && Decision(s, f)
    ensures Step(cfg, s, f).1 == Some(Start) ==>
      var t := Step(cfg, s, f).0; t.isSpeech && t.speechBuffer == f.chunk && t.silenceCounter == 0
  {
  }

  /**
   * An end is yielded exactly on an unvoiced decision in speech once the buffer
   * reaches the minimum speech length and the silence reaches the pad or the
   * maximum silence. It carries the whole buffer including this chunk, and the
   * segmenter is left idle with empty buffer, counters and activity history.
   */
  lemma EndEvent(cfg: Config, s: VadState, f: Frame)
    ensures var (t, e) := Step(cfg, s, f);
      && (e.Some? && e.value.End? <==>
            && s.isSpeech && !Decision(s, f)
            && |s.speechBuffer| + |f.chunk| >= cfg.minSpeechSamples
            && (s.silenceCounter + |f.chunk| >= cfg.padSamples || s.silenceCounter + |f.chunk| >= cfg.maxSilenceSamples))
      && (e.Some? && e.value.End? ==>
            && e.value.waveform == s.speechBuffer + f.chunk
            && !t.isSpeech && t.speechBuffer == [] && t.silenceCounter == 0 && t.speechCounter == 0
            && t.activityHistory == [])
  {
  }

  /** A call that yields nothing keeps the mode; a start enters speech and an end leaves it. */
  lemma StepMode(cfg: Config, s: VadState, f: Frame)
    ensures var (t, e) := Step(cfg, s, f);
      && (e.None? ==> t.isSpeech == s.isSpeech)
      && (e == Some(Start) ==> !s.isSpeech && t.isSpeech)
      && (e.Some? && e.value.End? ==> s.isSpeech && !t.isSpeech)
  {
  }

  /** A call in speech that yields nothing keeps speaking and appends the chunk to the buffer. */
  lemma QuietStepInSpeech(cfg: Config, s: VadState, f: Frame)
    requires s.isSpeech && Step(cfg, s, f).1.None?
    ensures Step(cfg, s, f).0.isSpeech && Step(cfg, s, f).0.speechBuffer == s.speechBuffer + f.chunk
  {
  }

  /**
   * With the minimum speech length at most the pad, and the pad at most the
   * maximum silence, a segment ends exactly when its trailing silence reaches the
   * pad: the buffer always holds at least the silence, so the length gate never
   * blocks, and the maximum-silence condition never decides.
   */
  lemma EndWhenPadReached(cfg: Config, s: VadState, f: Frame)
    requires Inv(s) && cfg.minSpeechSamples <= cfg.padSamples <= cfg.maxSilenceSamples
    ensures var e := Step(cfg, s, f).1;
      && (e.Some? && e.value.End? <==> s.isSpeech && !Decision(s, f) && s.silenceCounter + |f.chunk| >= cfg.padSamples)
      && (e.Some? && e.value.End? ==> e.value.reason == PadReached)
  {
    EndEvent(cfg, s, f);
  }

  /** The application's configuration satisfies the ordering above. */
  lemma AppConfigOrdered()
    ensures AppConfig.minSpeechSamples <= AppConfig.padSamples <= AppConfig.maxSilenceSamples
    ensures AppConfig == Config(12800, 3200, 24000)
  {
  }

  /** Several calls in a row: the final state and every event yielded, in order. */
  function Run(cfg: Config, s: VadState, fs: seq<Frame>): (VadState, seq<Event>)
    decreases |fs|
  {
    if fs == [] then (s, [])
    else
      var (t, e) := Step(cfg, s, fs[0]);
      var (u, rest) := Run(cfg, t, fs[1..]);
      (u, (if e.Some? then [e.value] else []) + rest)
  }

  /** Starts and ends alternate, beginning with a start when idle and with an end when speaking. */
  predicate Alternating(events: seq<Event>, inSpeech: bool)
    decreases |events|
  {
    events == [] || (events[0].Start? == !inSpeech && Alternating(events[1..], !inSpeech))
  }

  /**
   * One event more in front of an alternating run: a start from idle or an end
   * in speech switches the mode, no event keeps it, and the parity of the count
   * still gives the final mode.
   */
  lemma AlternatingCons(e: Option<Event>, rest: seq<Event>, inSpeech: bool, next: bool, final: bool)
    requires e.None? ==> next == inSpeech
    requires e.Some? ==> e.value.Start? == !inSpeech && next == !inSpeech
    requires Alternating(rest, next) && final == (next != (|rest| % 2 == 1))
    ensures var evs := (if e.Some? then [e.value] else []) + rest;
      Alternating(evs, inSpeech) && final == (inSpeech != (|evs| % 2 == 1))
  {
    if e.Some? {
      var evs := [e.value] + rest;
      assert evs[1..] == rest;
    } else {
      assert [] + rest == rest;
    }
  }

  /** Over any run, starts and ends alternate and the final mode reflects how many were yielded. */
  lemma {:induction false} RunAlternates(cfg: Config, s: VadState, fs: seq<Frame>)
    ensures Alternating(Run(cfg, s, fs).1, s.isSpeech)
    ensures Run(cfg, s, fs).0.isSpeech == (s.isSpeech != (|Run(cfg, s, fs).1| % 2 == 1))
    decreases |fs|
  {
    if fs != [] {
      var (t, e) := Step(cfg, s, fs[0]);
      RunAlternates(cfg, t, fs[1..]);
      StepMode(cfg, s, fs[0]);
      var (u, rest) := Run(cfg, t, fs[1..]);
      AlternatingCons(e, rest, s.isSpeech, t.isSpeech, u.isSpeech);
    }
  }

  /** With the pad at most the maximum silence, no run ever ends a segment for maximum silence. */
  lemma {:induction false} RunNeverMaxSilence(cfg: Config, s: VadState, fs: seq<Frame>)
    requires cfg.padSamples <= cfg.maxSilenceSamples
    ensures forall e | e in Run(cfg, s, fs).1 :: e.Start? || e.reason == PadReached
    decreases |fs|
  {
    if fs != [] {
      var (t, e) := Step(cfg, s, fs[0]);
      RunNeverMaxSilence(cfg, t, fs[1..]);
      var rest := Run(cfg, t, fs[1..]).1;
      var evs := (if e.Some? then [e.value] else []) + rest;
      assert Run(cfg, s, fs).1 == evs;
      if e.Some? {
        assert e.value.Start? || e.value.reason == PadReached;
      }
    }
  }

  /** All the chunks of some frames, end to end. */
  function Concat(fs: seq<Frame>): seq<real>
    decreases |fs|
  {
    if fs == [] then [] else fs[0].chunk + Concat(fs[1..])
  }

  /** While a run yields nothing in speech, the buffer grows by exactly the chunks received. */
  lemma {:induction false} BufferWhileSpeaking(cfg: Config, s: VadState, fs: seq<Frame>)
    requires s.isSpeech && Run(cfg, s, fs).1 == []
    ensures Run(cfg, s, fs).0.isSpeech && Run(cfg, s, fs).0.speechBuffer == s.speechBuffer + Concat(fs)
    decreases |fs|
  {
    if fs != [] {
      var (t, e) := Step(cfg, s, fs[0]);
      assert e.None?;
      QuietStepInSpeech(cfg, s, fs[0]);
      BufferWhileSpeaking(cfg, t, fs[1..]);
      assert s.speechBuffer + fs[0].chunk + Concat(fs[1..]) == s.speechBuffer + (fs[0].chunk + Concat(fs[1..]));
    }
  }

  /**
   * A segment's waveform is every chunk from the one that started speech to the
   * one that ended it, trailing silence included.
   */
  lemma SegmentWaveform(cfg: Config, s: VadState, first: Frame, middle: seq<Frame>, last: Frame)
    requires Step(cfg, s, first).1 == Some(Start)
    requires Run(cfg, Step(cfg, s, first).0, middle).1 == []
    requires Step(cfg, Run(cfg, Step(cfg, s, first).0, middle).0, last).1.Some?
    requires Step(cfg, Run(cfg, Step(cfg, s, first).0, middle).0, last).1.value.End?
    ensures Step(cfg, Run(cfg, Step(cfg, s, first).0, middle).0, last).1.value.waveform == Concat([first] + middle + [last])
  {
    var t := Step(cfg, s, first).0;
    StartEvent(cfg, s, first);
    BufferWhileSpeaking(cfg, t, middle);
    var u := Run(cfg, t, middle).0;
    EndEvent(cfg, u, last);
    ConcatAppend([first] + middle, last);
    assert ([first] + middle)[1..] == middle;
  }

  /** Concatenating the chunks of one more frame. */
  lemma {:induction false} ConcatAppend(fs: seq<Frame>, f: Frame)
    ensures Concat(fs + [f]) == Concat(fs) + f.chunk
    decreases |fs|
  {
    if fs == [] {
      assert [] + [f] == [f];
    } else {
      assert (fs + [f])[1..] == fs[1..] + [f];
      ConcatAppend(fs[1..], f);
    }
  }

  /** An idle segmenter with no voiced flag in its history never starts on frames whose raw flag is unvoiced. */
  lemma {:induction false} SilenceNeverStarts(cfg: Config, s: VadState, fs: seq<Frame>)
    requires !s.isSpeech && forall i :: 0 <= i < |s.activityHistory| ==> !s.activityHistory[i]
    requires forall i :: 0 <= i < |fs| ==> !fs[i].voiced
    ensures Run(cfg, s, fs).1 == [] && !Run(cfg, s, fs).0.isSpeech
    decreases |fs|
  {
    if fs != [] {
      var a := PushBounded(s.activityHistory, false, ActivityWindow);
      assert forall i :: 0 <= i < |a| ==> !a[i];
      var t := Step(cfg, s, fs[0]).0;
      assert t.activityHistory == a;
      SilenceNeverStarts(cfg, t, fs[1..]);
    }
  }

  /** The segmenter object, updated in place by each call. */
  class ImprovedVad {
    const cfg: Config
    var isSpeech: bool
    var speechBuffer: seq<real>
    var silenceCounter: nat
    var speechCounter: nat
    var energyHistory: seq<real>
    var activityHistory: seq<bool>
    var noiseFloor: real

    /** The fields as a value. */
    function State(): VadState
      reads this
    {
      VadState(isSpeech, speechBuffer, silenceCounter, speechCounter, energyHistory, activityHistory, noiseFloor)
    }

    /** `__init__`: durations converted from milliseconds to samples, everything else empty. */
    constructor (speechPadMs: nat, minSpeechMs: nat, maxSilenceMs: nat)
      ensures cfg == Config(SamplesOf(speechPadMs), SamplesOf(minSpeechMs), SamplesOf(maxSilenceMs))
      ensures State() == InitState
    {
      cfg := Config(SamplesOf(speechPadMs), SamplesOf(minSpeechMs), SamplesOf(maxSilenceMs));
      isSpeech := false;
      speechBuffer := [];
      silenceCounter := 0;
      speechCounter := 0;
      energyHistory := [];
      activityHistory := [];
      noiseFloor := InitialNoiseFloor;
    }

    /** `_smooth_energy`'s history update: append, and drop the oldest beyond twenty. */
    method SmoothEnergy(energy: real)
      modifies this
      ensures energyHistory == PushBounded(old(energyHistory), energy, EnergyHistoryLength)
      ensures State() == old(State()).(energyHistory := energyHistory)
    {
      energyHistory := energyHistory + [energy];
      if |energyHistory| > EnergyHistoryLength {
        energyHistory := energyHistory[1..];
      }
    }

    /** `_update_noise_floor`: re-estimate outside speech once more than five energies are known. */
    method UpdateNoiseFloor(floorEstimate: real)
      modifies this
      ensures noiseFloor == if !isSpeech && |energyHistory| > 5 then floorEstimate else old(noiseFloor)
      ensures State() == old(State()).(noiseFloor := noiseFloor)
    {
      if !isSpeech && |energyHistory| > 5 {
        noiseFloor := floorEstimate;
      }
    }

    /** `_is_speech_energy`: record the raw flag (keeping ten) and apply the 2-of-3 hysteresis. */
    method IsSpeechEnergy(f: Frame) returns (voice: bool)
      modifies this
      ensures activityHistory == PushBounded(old(activityHistory), f.voiced, ActivityWindow)
      ensures noiseFloor == if !isSpeech && |energyHistory| > 5 then f.floorEstimate else old(noiseFloor)
      ensures State() == old(State()).(activityHistory := activityHistory, noiseFloor := noiseFloor)
      ensures voice == Hysteresis(activityHistory, f.voiced)
    {
      UpdateNoiseFloor(f.floorEstimate);
      activityHistory := activityHistory + [f.voiced];
      if |activityHistory| > ActivityWindow {
        activityHistory := activityHistory[1..];
      }
      if |activityHistory| >= 3 {
        var recent := Flag(activityHistory[|activityHistory| - 3]) + Flag(activityHistory[|activityHistory| - 2])
                      + Flag(activityHistory[|activityHistory| - 1]);
        if recent >= 2 {
          return true;
        }
      }
      voice := f.voiced;
    }

    /** `__call__`: one chunk in, at most one event out. */
    method Call(f: Frame) returns (event: Option<Event>)
      modifies this
      ensures State() == Step(cfg, old(State()), f).0
      ensures event == Step(cfg, old(State()), f).1
    {
      SmoothEnergy(f.energy);
      var voice := IsSpeechEnergy(f);
      var n := |f.chunk|;
      event := None;
      if voice {
        speechCounter := speechCounter + n;
        if !isSpeech {
          isSpeech := true;
          speechBuffer := [];
          silenceCounter := 0;
          speechCounter := n;
          event := Some(Start);
        }
        speechBuffer := speechBuffer + f.chunk;
        silenceCounter := 0;
      } else if isSpeech {
        silenceCounter := silenceCounter + n;
        speechBuffer := speechBuffer + f.chunk;
        var longEnough := |speechBuffer| >= cfg.minSpeechSamples;
        var reason := PadReached;
        var shouldEnd := false;
        if longEnough {
          if silenceCounter >= cfg.padSamples {
            shouldEnd := true;
          } else if silenceCounter >= cfg.maxSilenceSamples {
            shouldEnd := true;
            reason := MaxSilence;
          }
        }
        if shouldEnd {
          isSpeech := false;
          var speechData := speechBuffer;
          speechBuffer := [];
          silenceCounter := 0;
          speechCounter := 0;
          activityHistory := [];
          event := Some(End(speechData, reason));
        }
      }
    }
  }
}
