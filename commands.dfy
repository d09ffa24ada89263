/**
 * The command processor of voice_recognition_app.py: resolving recognised text
 * to a command, dispatching that command to its handler or to a keyboard
 * shortcut, and the repeat and cooldown gates around dispatch.
 */
module Commands {
  import opened Common
  import opened Text
  import opened Shortcuts
  import opened Controller

  /** The commands handled by the processor itself rather than by a shortcut, in dictionary order. */
  const SpecialCommands: seq<string> := [
    "退出", "关闭", "停止", "暂停", "结束", "测试复制", "打开浏览器", "打开记事本", "打开计算器"
  ]

  /** The synonym table, as (synonym, command) pairs in dictionary order. */
  const Synonyms: seq<(string, string)> := [
    ("退出应用", "退出"), ("关闭程序", "退出"), ("停止识别", "停止"), ("暂停识别", "暂停"),
    ("结束程序", "退出"),
    ("刷新页面", "刷新"), ("刷新当前页面", "刷新"), ("复制文本", "复制"), ("粘贴文本", "粘贴"),
    ("剪切文本", "剪切"), ("撤销操作", "撤销"), ("重做操作", "重做"), ("保存文件", "保存"),
    ("全部选择", "全选"),
    ("窗口最小化", "最小化"), ("窗口最大化", "最大化"), ("关闭当前窗口", "关闭窗口"),
    ("切换到下一个窗口", "切换窗口"),
    ("打开网页浏览器", "打开浏览器"), ("新建浏览器标签", "新建标签"), ("关闭浏览器标签", "关闭标签"),
    ("刷新网页", "刷新页面"),
    ("调高音量", "增大音量"), ("调低音量", "减小音量"), ("静音模式", "静音"),
    ("屏幕截图", "截图"), ("屏幕截屏", "截图")
  ]

  /** The fuzzy-match threshold a score must exceed. */
  const FuzzyThreshold: real := 0.6

  /** The similarity above which a text counts as a repeat of the last executed one. */
  const RepeatThreshold: real := 0.8

  /** Seconds during which the same command is not executed again. */
  const CommandCooldown: real := 2.0

  /** No string occurs twice. */
  predicate Distinct(xs: seq<string>)
  {
    forall i, j :: 0 <= i < j < |xs| ==> xs[i] != xs[j]
  }

  /** The config commands appended after `acc` in order, skipping those already present. */
  function AppendNew(acc: seq<string>, es: seq<Entry>): (r: seq<string>)
    ensures |acc| <= |r| && r[..|acc|] == acc
    ensures forall c :: c in r <==> c in acc || c in Commands(es)
    ensures Distinct(acc) ==> Distinct(r)
    decreases |es|
  {
    if es == [] then acc
    else
      assert Commands(es) == {es[0].command} + Commands(es[1..]) by {
        assert forall e :: e in es <==> e == es[0] || e in es[1..];
      }
      AppendNew(if es[0].command in acc then acc else acc + [es[0].command], es[1..])
  }

  /** The special commands are pairwise different. */
  lemma SpecialCommandsDistinct()
    ensures Distinct(SpecialCommands)
  {
  }

  /**
   * The keys of the processor's command dictionary, in order: the special
   * commands, then each config command not already present, in config order.
   */
  function AllCommands(es: seq<Entry>): (r: seq<string>)
    ensures |SpecialCommands| <= |r| && r[..|SpecialCommands|] == SpecialCommands
    ensures forall c :: c in r <==> c in SpecialCommands || c in Commands(es)
    ensures Distinct(r)
  {
    SpecialCommandsDistinct();
    AppendNew(SpecialCommands, es)
  }

  /** The index of the first element satisfying `p`, as a `for ... return` loop finds it. */
  function FirstWhere<T>(xs: seq<T>, p: T -> bool): (r: Option<nat>)
    ensures r.None? <==> forall i :: 0 <= i < |xs| ==> !p(xs[i])
    ensures r.Some? ==> r.value < |xs| && p(xs[r.value]) && forall j :: 0 <= j < r.value ==> !p(xs[j])
  {
    if xs == [] then None
    else if p(xs[0]) then Some(0)
    else match FirstWhere(xs[1..], p)
      case None => None
      case Some(i) => Some(i + 1)
  }

  /** The fuzzy candidates in scan order: each command as (name, name), then each (synonym, command). */
  function FuzzyCandidates(commands: seq<string>, synonyms: seq<(string, string)>): (r: seq<(string, string)>)
    ensures |r| == |commands| + |synonyms|
    ensures forall i :: 0 <= i < |commands| ==> r[i] == (commands[i], commands[i])
    ensures forall i :: 0 <= i < |synonyms| ==> r[|commands| + i] == synonyms[i]
  {
    seq(|commands|, i requires 0 <= i < |commands| => (commands[i], commands[i])) + synonyms
  }

  /**
   * The fuzzy pass: a running best score starting at the threshold, replaced only
   * by a strictly greater score. The result is the index of the winning candidate.
   */
  function FuzzyBest(text: string, cands: seq<(string, string)>, sim: Similarity): (r: Option<nat>)
    ensures r.None? <==> forall k :: 0 <= k < |cands| ==> sim(text, cands[k].0) <= FuzzyThreshold
    ensures r.Some? ==> && r.value < |cands|
                        && sim(text, cands[r.value].0) > FuzzyThreshold
                        && (forall k :: 0 <= k < |cands| ==> sim(text, cands[k].0) <= sim(text, cands[r.value].0))
                        && (forall k :: 0 <= k < r.value ==> sim(text, cands[k].0) < sim(text, cands[r.value].0))
    decreases |cands|
  {
    if cands == [] then None
    else
      var last := |cands| - 1;
      var prev := FuzzyBest(text, cands[..last], sim);
      var bestScore := if prev.None? then FuzzyThreshold else sim(text, cands[prev.value].0);
      if sim(text, cands[last].0) > bestScore then Some(last) else prev
  }

  /** The fuzzy pass's `best_match`: the winning candidate's command, or None. */
  function FuzzyMatch(commands: seq<string>, synonyms: seq<(string, string)>, t: string, sim: Similarity): (r: Option<string>)
    ensures var cands := FuzzyCandidates(commands, synonyms);
      && (r.None? <==> forall k :: 0 <= k < |cands| ==> sim(t, cands[k].0) <= FuzzyThreshold)
      && (r.Some? ==> exists k :: && 0 <= k < |cands| && r.value == cands[k].1
                                  && sim(t, cands[k].0) > FuzzyThreshold
                                  && (forall m :: 0 <= m < |cands| ==> sim(t, cands[m].0) <= sim(t, cands[k].0))
                                  && (forall m :: 0 <= m < k ==> sim(t, cands[m].0) < sim(t, cands[k].0)))
  {
    var cands := FuzzyCandidates(commands, synonyms);
    match FuzzyBest(t, cands, sim)
    case None => None
    case Some(k) => Some(cands[k].1)
  }

  /** Python truthiness of an optional string: present and non-empty. */
  predicate Truthy(s: Option<string>)
  {
    s.Some? && s.value != ""
  }

  /** Pass 1: the first command contained in the text. */
  function ContainedCommand(commands: seq<string>, t: string): (r: Option<string>)
    ensures r.None? <==> forall i :: 0 <= i < |commands| ==> !IsSubstring(commands[i], t)
    ensures r.Some? ==> exists i :: && 0 <= i < |commands| && r.value == commands[i] && IsSubstring(commands[i], t)
                                    && forall j :: 0 <= j < i ==> !IsSubstring(commands[j], t)
  {
    match FirstWhere(commands, c => IsSubstring(c, t))
    case Some(i) => Some(commands[i])
    case None => None
  }

  /** Pass 2: the target of the first synonym contained in the text. */
  function ContainedSynonym(synonyms: seq<(string, string)>, t: string): (r: Option<string>)
    ensures r.None? <==> forall i :: 0 <= i < |synonyms| ==> !IsSubstring(synonyms[i].0, t)
    ensures r.Some? ==> exists i :: && 0 <= i < |synonyms| && r.value == synonyms[i].1 && IsSubstring(synonyms[i].0, t)
                                    && forall j :: 0 <= j < i ==> !IsSubstring(synonyms[j].0, t)
  {
    match FirstWhere(synonyms, (p: (string, string)) => IsSubstring(p.0, t))
    case Some(i) => Some(synonyms[i].1)
    case None => None
  }

  /** A command the text starts with is contained in the text. */
  lemma PrefixesContained(commands: seq<string>, t: string)
    ensures forall i :: 0 <= i < |commands| && StartsWith(t, commands[i]) ==> IsSubstring(commands[i], t)
  {
    forall i | 0 <= i < |commands| && StartsWith(t, commands[i]) ensures IsSubstring(commands[i], t) {
      PrefixIsSubstring(t, commands[i]);
    }
  }

  /** A command equal to, or inside, the text minus its last character is contained in the text. */
  lemma TruncationsContained(commands: seq<string>, t: string)
    requires |t| > 0
    ensures forall i :: 0 <= i < |commands| && (commands[i] == t[..|t| - 1] || IsSubstring(commands[i], t[..|t| - 1])) ==>
              IsSubstring(commands[i], t[..|t| - 1]) && IsSubstring(commands[i], t)
  {
    var truncated := t[..|t| - 1];
    forall i | 0 <= i < |commands| && (commands[i] == truncated || IsSubstring(commands[i], truncated))
      ensures IsSubstring(commands[i], truncated) && IsSubstring(commands[i], t)
    {
      if commands[i] == truncated {
        SubstringOfSelf(truncated);
      }
      SubstringOfPrefix(commands[i], t, |t| - 1);
    }
  }

  /** Pass 3: the first command the text starts with; never found once pass 1 found nothing. */
  function PrefixCommand(commands: seq<string>, t: string): (r: Option<string>)
    ensures r.Some? ==> r.value in commands && StartsWith(t, r.value)
    ensures ContainedCommand(commands, t).None? ==> r.None?
  {
    PrefixesContained(commands, t);
    match FirstWhere(commands, c => StartsWith(t, c))
    case Some(i) => Some(commands[i])
    case None => None
  }

  /** Pass 6: the first command equal to, or inside, the text minus its last character; never found once pass 1 found nothing. */
  function TruncatedCommand(commands: seq<string>, t: string): (r: Option<string>)
    requires |t| > 0
    ensures r.Some? ==> r.value in commands && IsSubstring(r.value, t[..|t| - 1])
    ensures ContainedCommand(commands, t).None? ==> r.None?
  {
    var truncated := t[..|t| - 1];
    TruncationsContained(commands, t);
    match FirstWhere(commands, c => c == truncated || IsSubstring(c, truncated))
    case Some(i) => Some(commands[i])
    case None => None
  }

  /**
   * `find_command`, pass by pass on the stripped, lower-cased text: containment of
   * a command, containment of a synonym, prefix, fuzzy, and the truncation retry
   * when fuzzy found nothing.
   */
  function FindCommand(commands: seq<string>, synonyms: seq<(string, string)>, text: string, sim: Similarity): Option<string>
  {
    var t := Lower(Strip(text));
    var contained := ContainedCommand(commands, t);
    if contained.Some? then contained
    else
      var synonym := ContainedSynonym(synonyms, t);
      if synonym.Some? then synonym
      else
        var prefix := PrefixCommand(commands, t);
        if prefix.Some? then prefix
        else
          var best := FuzzyMatch(commands, synonyms, t, sim);
          if !Truthy(best) && |t| > 2 then
            var truncated := TruncatedCommand(commands, t);
            if truncated.Some? then truncated else best
          else best
  }

  /**
   * What `find_command` returns. The prefix and truncation passes never decide
   * anything: a prefix of the text, and anything inside the text minus its last
   * character, is already contained in the text, where pass 1 would have found it.
   * So the result is pass 1's command, else pass 2's synonym target, else the fuzzy winner.
   */
  lemma FindCommandCascade(commands: seq<string>, synonyms: seq<(string, string)>, text: string, sim: Similarity)
    ensures var t := Lower(Strip(text));
      FindCommand(commands, synonyms, text, sim) ==
        if ContainedCommand(commands, t).Some? then ContainedCommand(commands, t)
        else if ContainedSynonym(synonyms, t).Some? then ContainedSynonym(synonyms, t)
        else FuzzyMatch(commands, synonyms, t, sim)
  {
  }

  /** `find_command` only ever returns a command of the dictionary or the target of a synonym. */
  lemma FindCommandRange(commands: seq<string>, synonyms: seq<(string, string)>, text: string, sim: Similarity)
    ensures var r := FindCommand(commands, synonyms, text, sim);
      r.Some? ==> r.value in commands || exists i :: 0 <= i < |synonyms| && synonyms[i].1 == r.value
  {
    var t := Lower(Strip(text));
    FindCommandCascade(commands, synonyms, text, sim);
    if ContainedCommand(commands, t).None? && ContainedSynonym(synonyms, t).None? {
      var f := FuzzyMatch(commands, synonyms, t, sim);
      if f.Some? {
        var cands := FuzzyCandidates(commands, synonyms);
        var k :| 0 <= k < |cands| && f.value == cands[k].1;
        if k >= |commands| {
          assert synonyms[k - |commands|].1 == f.value;
        }
      }
    }
  }

  /**
   * An utterance containing "关闭" resolves to "退出" or "关闭", both of which exit
   * the application: the special commands are tried first, so a configured
   * "关闭窗口" or "关闭标签" can never be reached by saying it.
   */
  lemma CloseSpokenResolvesToExit(es: seq<Entry>, synonyms: seq<(string, string)>, text: string, sim: Similarity)
    requires IsSubstring("关闭", Lower(Strip(text)))
    ensures FindCommand(AllCommands(es), synonyms, text, sim) in {Some("退出"), Some("关闭")}
  {
    var commands := AllCommands(es);
    var t := Lower(Strip(text));
    assert commands[..2] == ["退出", "关闭"] by {
      assert commands[..|SpecialCommands|] == SpecialCommands;
      assert commands[..2] == SpecialCommands[..2];
    }
    assert commands[1] == "关闭";
    ContainedAmongFirst(commands, t, 1);
    FoundContained(commands, synonyms, text, sim);
    var c := ContainedCommand(commands, t).value;
    assert c == "退出" || c == "关闭";
  }

  /** Once pass 1 finds a command, that command is the result. */
  lemma FoundContained(commands: seq<string>, synonyms: seq<(string, string)>, text: string, sim: Similarity)
    requires ContainedCommand(commands, Lower(Strip(text))).Some?
    ensures FindCommand(commands, synonyms, text, sim) == ContainedCommand(commands, Lower(Strip(text)))
  {
  }

  /** When the command at index `k` is in the text, pass 1 finds one of the first `k + 1` commands. */
  lemma ContainedAmongFirst(commands: seq<string>, t: string, k: nat)
    requires k < |commands| && IsSubstring(commands[k], t)
    ensures ContainedCommand(commands, t).Some?
    ensures ContainedCommand(commands, t).value in commands[..k + 1]
  {
    var r := ContainedCommand(commands, t);
    var i :| && 0 <= i < |commands| && r.value == commands[i] && IsSubstring(commands[i], t)
             && forall j :: 0 <= j < i ==> !IsSubstring(commands[j], t);
    assert i <= k;
    assert commands[..k + 1][i] == commands[i];
  }

  /** What a special command's handler did: returned a value (possibly None) or raised. */
  datatype HandlerResult = Returned(value: Option<bool>) | Raised

  /** The keyboard operation `execute_shortcut` chose. */
  datatype KeyPress = HotkeyPress(keys: seq<string>) | SingleKey(key: string)

  /** What `execute_command` did. */
  datatype Dispatch =
    | UnknownCommand                      // not a key of the command dictionary
    | Special(ok: bool)                   // a special command's handler ran
    | NoShortcut                          // a shortcut command with no (or empty) keys configured
    | Shortcut(press: KeyPress, sent: Sent)

  /** The truth value `execute_command` returns. */
  predicate DispatchOk(d: Dispatch)
  {
    match d
    case UnknownCommand => false
    case Special(ok) => ok
    case NoShortcut => false
    case Shortcut(_, sent) => sent.ok
  }

  /** A handler's result as `execute_command` reports it: None counts as success, a raise as failure. */
  function HandlerOk(h: HandlerResult): bool
  {
    match h
    case Returned(None) => true
    case Returned(Some(b)) => b
    case Raised => false
  }

  /**
   * `execute_shortcut`: no keys (or empty keys) fail; otherwise the keys are split
   * on "+" and sent as a hotkey when there are several, as one key otherwise.
   */
  function ExecuteShortcut(shortcut: Option<string>, keyboard: KeyController, raises: Call -> bool): (r: Dispatch)
    requires keyboard.backend == KeyboardLib
    ensures r.NoShortcut? <==> !Truthy(shortcut)
    ensures !r.NoShortcut? ==> r.Shortcut?
    ensures r.Shortcut? ==> (r.press.HotkeyPress? <==> '+' in shortcut.value)
    ensures r.Shortcut? && r.press.HotkeyPress? ==> Join(r.press.keys, '+') == shortcut.value
    ensures r.Shortcut? && r.press.SingleKey? ==> r.press.key == shortcut.value
    ensures r.Shortcut? && !keyboard.available ==> r.sent == Sent(false, [])
    ensures r.Shortcut? && keyboard.available ==>
      r.sent.calls == [KeyboardSend(shortcut.value)] && (r.sent.ok <==> !raises(KeyboardSend(shortcut.value)))
  {
    if !Truthy(shortcut) then NoShortcut
    else
      var keys := Split(shortcut.value, '+');
      JoinSplit(shortcut.value, '+');
      SplitPieces(shortcut.value, '+');
      if |keys| > 1 then Shortcut(HotkeyPress(keys), SendHotkey(keyboard, keys, raises))
      else Shortcut(SingleKey(keys[0]), SendKey(keyboard, keys[0], raises))
  }

  /** What the processor is built from: its command list, synonym table, shortcut map and keyboard. */
  datatype Setup = Setup(commands: seq<string>, synonyms: seq<(string, string)>,
                         shortcuts: map<string, string>, keyboard: KeyController)

  /** A setup as the processor's constructor builds it, on the keyboard library. */
  predicate WellFormed(s: Setup)
  {
    s.keyboard.backend == KeyboardLib && Distinct(s.commands) &&
    |SpecialCommands| <= |s.commands| && s.commands[..|SpecialCommands|] == SpecialCommands
  }

  /** `execute_command`: unknown names fail; special commands run their handler; the rest press their shortcut. */
  function ExecuteCommand(s: Setup, name: string, handler: string -> HandlerResult, raises: Call -> bool): (r: Dispatch)
    requires s.keyboard.backend == KeyboardLib
    ensures r.UnknownCommand? <==> name !in s.commands
    ensures name in s.commands && name in SpecialCommands ==> r == Special(HandlerOk(handler(name)))
    ensures name in s.commands && name !in SpecialCommands && name !in s.shortcuts ==> r == NoShortcut
    ensures name in s.commands && name !in SpecialCommands ==>
      r == ExecuteShortcut(if name in s.shortcuts then Some(s.shortcuts[name]) else None, s.keyboard, raises)
  {
    if name !in s.commands then UnknownCommand
    else if name in SpecialCommands then Special(HandlerOk(handler(name)))
    else ExecuteShortcut(if name in s.shortcuts then Some(s.shortcuts[name]) else None, s.keyboard, raises)
  }

  /** The processor's mutable state: the last executed command, when it finished, and its text. */
  datatype CommandState = CommandState(lastCommand: Option<string>, lastCommandTime: real, lastRecognizedText: string)

  /** The state `__init__` and `reset_command_state` establish. */
  const FreshState: CommandState := CommandState(None, 0.0, "")

  /** `is_text_repeated`: a non-empty last text that the new text resembles above 0.8. */
  predicate TextRepeated(st: CommandState, text: string, sim: Similarity)
  {
    st.lastRecognizedText != "" &&
    sim(Strip(Lower(text)), Strip(Lower(st.lastRecognizedText))) > RepeatThreshold
  }

  /** `is_command_in_cooldown`: the same command as last time, less than two seconds ago. */
  predicate InCooldown(st: CommandState, command: string, now: real)
  {
    st.lastCommand == Some(command) && now - st.lastCommandTime < CommandCooldown
  }

  /** Why `process_text` did or did not dispatch. */
  datatype TextOutcome =
    | Repeated
    | NoCommand
    | Cooldown(command: string)
    | Dispatched(command: string, dispatch: Dispatch)

  /** The value `process_text` returns. */
  predicate OutcomeOk(o: TextOutcome)
  {
    o.Dispatched? && DispatchOk(o.dispatch)
  }

  /**
   * `process_text`: drop repeats, resolve the command, drop it while cooling down,
   * execute it, and on success remember the command, the clock after execution
   * (`doneAt`) and the text.
   */
  function ProcessTextSpec(s: Setup, st: CommandState, text: string, now: real, doneAt: real,
                           sim: Similarity, handler: string -> HandlerResult, raises: Call -> bool): (r: (TextOutcome, CommandState))
    requires s.keyboard.backend == KeyboardLib
    ensures r.0.Repeated? <==> TextRepeated(st, text, sim)
    ensures r.0.Cooldown? ==> InCooldown(st, r.0.command, now) && Truthy(FindCommand(s.commands, s.synonyms, text, sim))
    ensures r.0.Dispatched? ==> !InCooldown(st, r.0.command, now) && Some(r.0.command) == FindCommand(s.commands, s.synonyms, text, sim)
    ensures !OutcomeOk(r.0) ==> r.1 == st
    ensures OutcomeOk(r.0) ==> r.1 == CommandState(Some(r.0.command), doneAt, text)
    ensures var c := FindCommand(s.commands, s.synonyms, text, sim);
      !TextRepeated(st, text, sim) && !Truthy(c) ==> r.0 == NoCommand
    ensures var c := FindCommand(s.commands, s.synonyms, text, sim);
      !TextRepeated(st, text, sim) && Truthy(c) && InCooldown(st, c.value, now) ==> r.0 == Cooldown(c.value)
    ensures var c := FindCommand(s.commands, s.synonyms, text, sim);
      !TextRepeated(st, text, sim) && Truthy(c) && !InCooldown(st, c.value, now) ==>
        r.0 == Dispatched(c.value, ExecuteCommand(s, c.value, handler, raises))
  {
    if TextRepeated(st, text, sim) then (Repeated, st)
    else
      var command := FindCommand(s.commands, s.synonyms, text, sim);
      if !Truthy(command) then (NoCommand, st)
      else if InCooldown(st, command.value, now) then (Cooldown(command.value), st)
      else
        var d := ExecuteCommand(s, command.value, handler, raises);
        if DispatchOk(d) then (Dispatched(command.value, d), CommandState(Some(command.value), doneAt, text))
        else (Dispatched(command.value, d), st)
  }

  /** A command other than the last executed one is never cooling down. */
  lemma OtherCommandNotInCooldown(st: CommandState, command: string, now: real)
    requires st.lastCommand != Some(command)
    ensures !InCooldown(st, command, now)
  {
  }

  /** From the fresh state no text is a repeat and no command is cooling down. */
  lemma FreshStateGatesOpen(text: string, command: string, now: real, sim: Similarity)
    ensures !TextRepeated(FreshState, text, sim)
    ensures !InCooldown(FreshState, command, now)
  {
  }

  /** From the fresh state `process_text` only reports no command or a dispatch. */
  lemma FreshProcessText(s: Setup, text: string, now: real, doneAt: real,
                         sim: Similarity, handler: string -> HandlerResult, raises: Call -> bool)
    requires s.keyboard.backend == KeyboardLib
    ensures var o := ProcessTextSpec(s, FreshState, text, now, doneAt, sim, handler, raises).0;
      o.NoCommand? || o.Dispatched?
  {
    FreshStateGatesOpen(text, "", now, sim);
  }

  /**
   * The command processor: its setup is fixed at construction, the three
   * `last_*` fields change as commands execute.
   */
  class CommandProcessor {
    const setup: Setup
    var lastCommand: Option<string>
    var lastCommandTime: real
    var lastRecognizedText: string

    /** The current state as a value. */
    function State(): CommandState
      reads this
    {
      CommandState(lastCommand, lastCommandTime, lastRecognizedText)
    }

    /** Builds the command dictionary from the special commands and the loaded shortcut table. */
    constructor (config: ShortcutConfig, keyboardAvailable: bool)
      ensures setup == Setup(AllCommands(config.shortcuts), Synonyms, config.commandToKeys,
                             KeyController(KeyboardLib, keyboardAvailable))
      ensures WellFormed(setup)
      ensures State() == FreshState
    {
      setup := Setup(AllCommands(config.shortcuts), Synonyms, config.commandToKeys,
                     KeyController(KeyboardLib, keyboardAvailable));
      lastCommand := None;
      lastCommandTime := 0.0;
      lastRecognizedText := "";
    }

    /** `is_text_repeated` on the current state. */
    predicate IsTextRepeated(text: string, sim: Similarity)
      reads this
    {
      TextRepeated(State(), text, sim)
    }

    /** `is_command_in_cooldown` on the current state. */
    predicate IsCommandInCooldown(command: string, now: real)
      reads this
    {
      InCooldown(State(), command, now)
    }

    /** `reset_command_state`. */
    method ResetCommandState()
      modifies this
      ensures State() == FreshState
    {
      lastCommand := None;
      lastCommandTime := 0.0;
      lastRecognizedText := "";
    }

    /** `process_text`, with the clock read before (`now`) and after (`doneAt`) execution. */
    method ProcessText(text: string, now: real, doneAt: real, sim: Similarity,
                       handler: string -> HandlerResult, raises: Call -> bool) returns (ok: bool, outcome: TextOutcome)
      requires WellFormed(setup)
      modifies this
      ensures (outcome, State()) == ProcessTextSpec(setup, old(State()), text, now, doneAt, sim, handler, raises)
      ensures ok == OutcomeOk(outcome)
    {
      ghost var st := State();
      ghost var spec := ProcessTextSpec(setup, st, text, now, doneAt, sim, handler, raises);
      if IsTextRepeated(text, sim) {
        return false, Repeated;
      }
      var command := FindCommand(setup.commands, setup.synonyms, text, sim);
      if !Truthy(command) {
        return false, NoCommand;
      }
      if IsCommandInCooldown(command.value, now) {
        return false, Cooldown(command.value);
      }
      var d := ExecuteCommand(setup, command.value, handler, raises);
      assert spec.0 == Dispatched(command.value, d);
      ok := DispatchOk(d);
      outcome := Dispatched(command.value, d);
      if ok {
        assert spec.1 == CommandState(command, doneAt, text);
        lastCommand := command;
        lastCommandTime := doneAt;
        lastRecognizedText := text;
      } else {
        assert spec.1 == st;
      }
    }
  }
}
