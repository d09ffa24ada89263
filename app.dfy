/**
 * The recognition pipeline of `VoiceRecognitionApp` in voice_recognition_app.py:
 * each audio chunk goes through the segmenter; a start of speech resets the
 * duplicate filter and the command state; an end of speech is recognised and
 * its final result is de-duplicated, tried as a command, and otherwise sent to chat.
 *
 * Speech recognition itself is a parameter (`recognize`): the last non-empty
 * result of streaming inference over the segment, or None.
 */
module App {
  import opened Common
  import opened Text
  import opened Controller
  import opened Shortcuts
  import opened Commands
  import opened Vad

  /** A recognition result: its text and its timestamps, if it carries any. */
  datatype Recognition = Recognition(text: string, timestamps: Option<seq<int>>)

  /** The duplicate filter's memory: the last stripped text and its timestamps. */
  datatype DedupState = DedupState(lastText: string, lastTimestamps: Option<seq<int>>)

  /** The filter's state at construction and after every start of speech. */
  const FreshDedup: DedupState := DedupState("", None)

  /**
   * `is_duplicate_result`: a duplicate when both the stripped text and the
   * timestamps equal the remembered pair; otherwise the new pair is remembered.
   */
  function DuplicateCheck(d: DedupState, r: Recognition): (res: (bool, DedupState))
    ensures res.0 <==> Strip(r.text) == d.lastText && r.timestamps == d.lastTimestamps
    ensures res.0 ==> res.1 == d
    ensures !res.0 ==> res.1 == DedupState(Strip(r.text), r.timestamps)
  {
    var text := Strip(r.text);
    if text == d.lastText && r.timestamps == d.lastTimestamps then (true, d)
    else (false, DedupState(text, r.timestamps))
  }

  /** Checking the same result twice in a row: the second check always reports a duplicate. */
  lemma DuplicateCheckTwice(d: DedupState, r: Recognition)
    ensures DuplicateCheck(DuplicateCheck(d, r).1, r).0
  {
  }

  /** Everything outside the model that a chunk's processing consults. */
  datatype Env = Env(
    sim: Similarity,
    handler: string -> HandlerResult,
    raises: Call -> bool,
    recognize: seq<real> -> Option<Recognition>)

  /** One audio chunk and the clock before and after a command it triggers. */
  datatype Tick = Tick(frame: Frame, now: real, doneAt: real)

  /** What `on_recognition_result` did with a final result. */
  datatype ResultOutcome =
    | EmptyText                                            // nothing left after stripping
    | Duplicate                                            // same text and timestamps as last time
    | Handled(command: Option<TextOutcome>, toChat: bool)  // tried as a command (when enabled), else chat

  /**
   * `on_recognition_result` for a final result: empty text is ignored before the
   * duplicate filter is consulted; a duplicate is dropped; otherwise the text is
   * tried as a command when commands are enabled and sent to chat unless a
   * command ran successfully.
   */
  function OnResult(s: Setup, enabled: bool, d: DedupState, c: CommandState, r: Recognition, t: Tick, env: Env)
    : (res: (ResultOutcome, DedupState, CommandState))
    requires WellFormed(s)
    ensures Strip(r.text) == "" ==> res == (EmptyText, d, c)
    ensures res.0 == Duplicate ==> res.1 == d && res.2 == c
    ensures res.0.Handled? ==> res.1 == DedupState(Strip(r.text), r.timestamps)
    ensures res.0.Handled? ==> (res.0.command.Some? <==> enabled)
    ensures res.0.Handled? ==> (res.0.toChat <==> !(res.0.command.Some? && OutcomeOk(res.0.command.value)))
    ensures !enabled ==> res.2 == c
    ensures Strip(r.text) != "" ==> (res.0 == Duplicate <==> DuplicateCheck(d, r).0)
    ensures res.0.Handled? <==> Strip(r.text) != "" && !DuplicateCheck(d, r).0
    ensures res.0.Handled? && enabled ==>
      (res.0.command.value, res.2) == ProcessTextSpec(s, c, Strip(r.text), t.now, t.doneAt, env.sim, env.handler, env.raises)
  {
    var text := Strip(r.text);
    if text == "" then (EmptyText, d, c)
    else
      var (dup, d') := DuplicateCheck(d, r);
      if dup then (Duplicate, d', c)
      else if enabled then
        var (o, c') := ProcessTextSpec(s, c, text, t.now, t.doneAt, env.sim, env.handler, env.raises);
        (Handled(Some(o), !OutcomeOk(o)), d', c')
      else (Handled(None, true), d', c)
  }

  /** The pipeline's state: the segmenter, the duplicate filter and the command processor. */
  datatype AppState = AppState(vad: VadState, dedup: DedupState, commands: CommandState)

  /** The state once the application is set up. */
  const InitAppState: AppState := AppState(InitState, FreshDedup, FreshState)

  /**
   * One chunk of `process_audio_stream`: run the segmenter; on a start reset the
   * filter and (when enabled) the command state; on an end with samples,
   * recognise the segment and handle the final result, if there is one.
   */
  function AppStep(s: Setup, cfg: Config, enabled: bool, st: AppState, t: Tick, env: Env)
    : (res: (AppState, Option<ResultOutcome>))
    requires WellFormed(s)
    ensures res.1.Some? ==> st.vad.isSpeech && !res.0.vad.isSpeech
    ensures res.0.vad == Step(cfg, st.vad, t.frame).0
  {
    StepMode(cfg, st.vad, t.frame);
    var (v, e) := Step(cfg, st.vad, t.frame);
    match e
    case None => (st.(vad := v), None)
    case Some(Start) => (AppState(v, FreshDedup, if enabled then FreshState else st.commands), None)
    case Some(End(w, _)) =>
      if |w| == 0 then (st.(vad := v), None)
      else match env.recognize(w)
        case None => (st.(vad := v), None)
        case Some(r) =>
          var (o, d, c) := OnResult(s, enabled, st.dedup, st.commands, r, t, env);
          (AppState(v, d, c), Some(o))
  }

  /**
   * What one chunk does, case by case on the segmenter's event: nothing but the
   * segmenter changes without an event or without a recognised segment; a start
   * resets the filter and, when enabled, the command state; an end whose
   * samples are recognised hands the result to `OnResult`.
   */
  lemma AppStepCases(s: Setup, cfg: Config, enabled: bool, st: AppState, t: Tick, env: Env)
    requires WellFormed(s)
    ensures var (res, e) := (AppStep(s, cfg, enabled, st, t, env), Step(cfg, st.vad, t.frame).1);
      && (e.None? ==> res.1.None? && res.0 == st.(vad := res.0.vad))
      && (e == Some(Start) ==>
            && res.1.None? && res.0.dedup == FreshDedup
            && res.0.commands == (if enabled then FreshState else st.commands))
      && (e.Some? && e.value.End? && (|e.value.waveform| == 0 || env.recognize(e.value.waveform).None?) ==>
            res.1.None? && res.0 == st.(vad := res.0.vad))
      && (e.Some? && e.value.End? && |e.value.waveform| > 0 && env.recognize(e.value.waveform).Some? ==>
            var o := OnResult(s, enabled, st.dedup, st.commands, env.recognize(e.value.waveform).value, t, env);
            res == (AppState(res.0.vad, o.1, o.2), Some(o.0)))
  {
  }

  /** Several chunks in a row: the final state and the outcome of every handled result, in order. */
  function AppRun(s: Setup, cfg: Config, enabled: bool, st: AppState, ticks: seq<Tick>, env: Env)
    : (AppState, seq<ResultOutcome>)
    requires WellFormed(s)
    decreases |ticks|
  {
    if ticks == [] then (st, [])
    else
      var (u, os) := AppRun(s, cfg, enabled, st, ticks[..|ticks| - 1], env);
      var (v, o) := AppStep(s, cfg, enabled, u, ticks[|ticks| - 1], env);
      (v, os + Outcomes(o))
  }

  /** The outcomes of one step, as a list: the handled result, if any. */
  function Outcomes(o: Option<ResultOutcome>): seq<ResultOutcome>
  {
    if o.Some? then [o.value] else []
  }

  /** Running one chunk more: the run of a prefix, then one step. */
  lemma AppRunSnoc(s: Setup, cfg: Config, enabled: bool, st: AppState, ticks: seq<Tick>, i: nat, env: Env,
                   u: AppState, os: seq<ResultOutcome>, v: AppState, o: Option<ResultOutcome>)
    requires WellFormed(s) && i < |ticks|
    requires (u, os) == AppRun(s, cfg, enabled, st, ticks[..i], env)
    requires (v, o) == AppStep(s, cfg, enabled, u, ticks[i], env)
    ensures AppRun(s, cfg, enabled, st, ticks[..i + 1], env) == (v, os + Outcomes(o))
  {
    assert ticks[..i + 1][..i] == ticks[..i];
  }

  /** While speech is in progress, the filter and (when enabled) the command state are as a start left them. */
  predicate SegmentFresh(enabled: bool, st: AppState)
  {
    st.vad.isSpeech ==> st.dedup == FreshDedup && (enabled ==> st.commands == FreshState)
  }

  /** An outcome none of the three suppressions produced: not a duplicate, not a repeat, not a cooldown. */
  predicate Unsuppressed(o: ResultOutcome)
  {
    o != Duplicate && (o.Handled? && o.command.Some? ==> !o.command.value.Repeated? && !o.command.value.Cooldown?)
  }

  /** Handling a result against a fresh filter and a fresh command state suppresses nothing. */
  lemma FreshResultUnsuppressed(s: Setup, enabled: bool, c: CommandState, r: Recognition, t: Tick, env: Env)
    requires WellFormed(s) && (enabled ==> c == FreshState)
    ensures Unsuppressed(OnResult(s, enabled, FreshDedup, c, r, t, env).0)
  {
    if enabled && Strip(r.text) != "" {
      FreshProcessText(s, Strip(r.text), t.now, t.doneAt, env.sim, env.handler, env.raises);
    }
  }

  /** Every chunk keeps the segment-freshness invariant, and any result it handles is unsuppressed. */
  lemma AppStepFresh(s: Setup, cfg: Config, enabled: bool, st: AppState, t: Tick, env: Env)
    requires WellFormed(s) && SegmentFresh(enabled, st)
    ensures SegmentFresh(enabled, AppStep(s, cfg, enabled, st, t, env).0)
    ensures var o := AppStep(s, cfg, enabled, st, t, env).1; o.Some? ==> Unsuppressed(o.value)
  {
    StepMode(cfg, st.vad, t.frame);
    var (v, e) := Step(cfg, st.vad, t.frame);
    if e.Some? && e.value.End? && |e.value.waveform| > 0 && env.recognize(e.value.waveform).Some? {
      FreshResultUnsuppressed(s, enabled, st.commands, env.recognize(e.value.waveform).value, t, env);
    }
  }

  /**
   * In the composed pipeline the duplicate filter, the repeat check and the
   * cooldown never fire: every start of speech resets their state, and each
   * segment yields at most one final result, handled at its end.
   */
  lemma {:induction false} PipelineNeverSuppresses(s: Setup, cfg: Config, enabled: bool, st: AppState, ticks: seq<Tick>, env: Env)
    requires WellFormed(s) && SegmentFresh(enabled, st)
    ensures SegmentFresh(enabled, AppRun(s, cfg, enabled, st, ticks, env).0)
    ensures forall o | o in AppRun(s, cfg, enabled, st, ticks, env).1 :: Unsuppressed(o)
    decreases |ticks|
  {
    if ticks != [] {
      var prefix := ticks[..|ticks| - 1];
      PipelineNeverSuppresses(s, cfg, enabled, st, prefix, env);
      var (u, os) := AppRun(s, cfg, enabled, st, prefix, env);
      AppStepFresh(s, cfg, enabled, u, ticks[|ticks| - 1], env);
    }
  }

  /** The application object: the segmenter, the command processor and the duplicate filter's fields. */
  class VoiceRecognitionApp {
    const enableCommands: bool
    const vad: ImprovedVad
    const processor: CommandProcessor
    var lastRecognitionResult: string
    var lastRecognitionTimestamps: Option<seq<int>>

    /** The filter's fields as a value. */
    function Dedup(): DedupState
      reads this
    {
      DedupState(lastRecognitionResult, lastRecognitionTimestamps)
    }

    /** The whole pipeline state as a value. */
    function State(): AppState
      reads this, vad, processor
    {
      AppState(vad.State(), Dedup(), processor.State())
    }

    /** The application with its command processor and its segmenter on the application's durations. */
    constructor (config: ShortcutConfig, keyboardAvailable: bool, enableCommands: bool)
      ensures this.enableCommands == enableCommands
      ensures vad.cfg == AppConfig && WellFormed(processor.setup)
      ensures State() == InitAppState
    {
      this.enableCommands := enableCommands;
      vad := new ImprovedVad(800, 200, 1500);
      processor := new CommandProcessor(config, keyboardAvailable);
      lastRecognitionResult := "";
      lastRecognitionTimestamps := None;
    }

    /** `is_duplicate_result`. */
    method IsDuplicateResult(r: Recognition) returns (dup: bool)
      modifies this
      ensures (dup, Dedup()) == DuplicateCheck(old(Dedup()), r)
    {
      var text := Strip(r.text);
      if text == lastRecognitionResult && r.timestamps == lastRecognitionTimestamps {
        return true;
      }
      lastRecognitionResult := text;
      lastRecognitionTimestamps := r.timestamps;
      dup := false;
    }

    /** `on_recognition_result` for a final result. */
    method OnRecognitionResult(r: Recognition, t: Tick, env: Env) returns (outcome: ResultOutcome)
      requires WellFormed(processor.setup)
      modifies this, processor
      ensures (outcome, Dedup(), processor.State())
        == OnResult(processor.setup, enableCommands, old(Dedup()), old(processor.State()), r, t, env)
    {
      var text := Strip(r.text);
      if text == "" {
        return EmptyText;
      }
      var dup := IsDuplicateResult(r);
      if dup {
        return Duplicate;
      }
      if enableCommands {
        var ok, o := processor.ProcessText(text, t.now, t.doneAt, env.sim, env.handler, env.raises);
        return Handled(Some(o), !ok);
      }
      outcome := Handled(None, true);
    }

    /** The body of `process_audio_stream`'s loop for one chunk. */
    method HandleChunk(t: Tick, env: Env) returns (outcome: Option<ResultOutcome>)
      requires WellFormed(processor.setup)
      modifies this, vad, processor
      ensures (State(), outcome) == AppStep(processor.setup, vad.cfg, enableCommands, old(State()), t, env)
    {
      var event := vad.Call(t.frame);
      outcome := None;
      match event
      case None =>
      case Some(Start) =>
        if enableCommands {
          processor.ResetCommandState();
        }
        lastRecognitionResult := "";
        lastRecognitionTimestamps := None;
      case Some(End(w, _)) =>
        if |w| > 0 {
          var r := env.recognize(w);
          if r.Some? {
            var o := OnRecognitionResult(r.value, t, env);
            outcome := Some(o);
          }
        }
    }

    /** `process_audio_stream` over a finite stream of chunks. */
    method ProcessAudioStream(ticks: seq<Tick>, env: Env) returns (outcomes: seq<ResultOutcome>)
      requires WellFormed(processor.setup) && SegmentFresh(enableCommands, State())
      modifies this, vad, processor
      ensures (State(), outcomes) == AppRun(processor.setup, vad.cfg, enableCommands, old(State()), ticks, env)
      ensures forall o | o in outcomes :: Unsuppressed(o)
    {
      ghost var s0 := State();
      ghost var setup, cfg := processor.setup, vad.cfg;
      outcomes := [];
      var i := 0;
      while i < |ticks|
        invariant 0 <= i <= |ticks|
        invariant (State(), outcomes) == AppRun(setup, cfg, enableCommands, s0, ticks[..i], env)
      {
        ghost var before, os := State(), outcomes;
        var o := HandleChunk(ticks[i], env);
        outcomes := outcomes + Outcomes(o);
        AppRunSnoc(setup, cfg, enableCommands, s0, ticks, i, env, before, os, State(), o);
        i := i + 1;
      }
      assert ticks[..i] == ticks;
      PipelineNeverSuppresses(processor.setup, vad.cfg, enableCommands, s0, ticks, env);
    }
  }
}
