/**
 * The shortcut test harness of test_shortcuts.py: every configured (or
 * selected) command is sent through `keyboard.send` unless it is skipped as
 * dangerous or as an audio command, and each attempt leaves one result record.
 *
 * The keyboard library is outside the model: whether it could be imported is
 * a flag, and whether a send raises is the parameter `raises`. The records
 * keep the fields the summary reads; `error` is left out because `send_hotkey`
 * catches every exception itself.
 */
module ShortcutTest {
  import opened Common
  import opened Controller
  import opened Shortcuts

  /** Commands that could close the application under test. */
  const DangerousCommands: set<string> := {"退出", "关闭", "关闭窗口", "关闭标签", "停止"}

  /** Commands that change the volume. */
  const AudioCommands: set<string> := {"增大音量", "减小音量", "静音"}

  /** `is_dangerous_command`. */
  predicate IsDangerous(command: string)
  {
    command in DangerousCommands
  }

  /** `is_audio_command`. */
  predicate IsAudio(command: string)
  {
    command in AudioCommands
  }

  /** No command is both dangerous and an audio command. */
  lemma DangerousAndAudioDisjoint(command: string)
    ensures !(IsDangerous(command) && IsAudio(command))
  {
    if IsDangerous(command) {
      assert command == "退出" || command == "关闭" || command == "关闭窗口" || command == "关闭标签" || command == "停止";
    }
  }

  /** Why a record ended the way it did. */
  datatype Reason = DangerousSkipped | AudioSkipped | NotInConfig | SendSucceeded | SendFailed

  /** One result record. */
  datatype TestResult = TestResult(command: string, keys: string, success: bool, skipped: bool, reason: Reason)

  /**
   * The tester's `send_hotkey`: without the keyboard library nothing is sent;
   * otherwise the keys string goes to `keyboard.send` unchanged, whether or not
   * it holds a "+", and a raised exception becomes a failure.
   */
  function SendHotkey(available: bool, keys: string, raises: Call -> bool): (r: Sent)
    ensures !available ==> r == Sent(false, [])
    ensures available ==> r.calls == [KeyboardSend(keys)] && (r.ok <==> !raises(KeyboardSend(keys)))
  {
    Guarded(available, KeyboardSend(keys), raises)
  }

  /** `test_command`: the record and the backend calls made. */
  function TestCommand(command: string, keys: string, skipDangerous: bool, available: bool, raises: Call -> bool)
    : (r: (TestResult, seq<Call>))
    ensures r.0.command == command && r.0.keys == keys
    ensures skipDangerous && IsDangerous(command) ==> r.0 == TestResult(command, keys, false, true, DangerousSkipped) && r.1 == []
    ensures !(skipDangerous && IsDangerous(command)) ==>
      && !r.0.skipped
      && r.1 == SendHotkey(available, keys, raises).calls
      && (r.0.success <==> SendHotkey(available, keys, raises).ok)
      && r.0.reason == (if r.0.success then SendSucceeded else SendFailed)
  {
    if skipDangerous && IsDangerous(command) then
      (TestResult(command, keys, false, true, DangerousSkipped), [])
    else
      var sent := SendHotkey(available, keys, raises);
      (TestResult(command, keys, sent.ok, false, if sent.ok then SendSucceeded else SendFailed), sent.calls)
  }

  /** A record the tester builds never reports both success and a skip. */
  predicate Coherent(r: TestResult)
  {
    !(r.success && r.skipped)
  }

  /** The handling of one configuration entry in `test_all_commands`. */
  function TestEntry(e: Entry, skipDangerous: bool, testAudio: bool, available: bool, raises: Call -> bool)
    : (TestResult, seq<Call>)
  {
    if !testAudio && IsAudio(e.command) then (TestResult(e.command, e.keys, false, true, AudioSkipped), [])
    else TestCommand(e.command, e.keys, skipDangerous, available, raises)
  }

  /** The handling of one selected command in `test_selected_commands`: a missing or empty binding is skipped. */
  function TestSelected(lookup: Option<string>, command: string, skipDangerous: bool, available: bool, raises: Call -> bool)
    : (TestResult, seq<Call>)
  {
    if lookup.None? || lookup.value == "" then (TestResult(command, "", false, true, NotInConfig), [])
    else TestCommand(command, lookup.value, skipDangerous, available, raises)
  }

  /** Whether an entry is actually sent: neither skipped as dangerous nor as audio. */
  predicate Eligible(e: Entry, skipDangerous: bool, testAudio: bool)
  {
    !(skipDangerous && IsDangerous(e.command)) && !(!testAudio && IsAudio(e.command))
  }

  /** The backend calls of a whole `test_all_commands` run, as a reference: one send per eligible entry. */
  function EligibleSends(es: seq<Entry>, skipDangerous: bool, testAudio: bool): seq<Call>
    decreases |es|
  {
    if es == [] then []
    else
      var e := es[|es| - 1];
      EligibleSends(es[..|es| - 1], skipDangerous, testAudio) + (if Eligible(e, skipDangerous, testAudio) then [KeyboardSend(e.keys)] else [])
  }

  /** The records of `test_all_commands`, entry by entry. */
  function AllResults(es: seq<Entry>, skipDangerous: bool, testAudio: bool, available: bool, raises: Call -> bool)
    : seq<TestResult>
  {
    seq(|es|, i requires 0 <= i < |es| => TestEntry(es[i], skipDangerous, testAudio, available, raises).0)
  }

  /** The backend calls of `test_all_commands`, in order. */
  function AllCalls(es: seq<Entry>, skipDangerous: bool, testAudio: bool, available: bool, raises: Call -> bool)
    : seq<Call>
    decreases |es|
  {
    if es == [] then []
    else
      var e := es[|es| - 1];
      AllCalls(es[..|es| - 1], skipDangerous, testAudio, available, raises) + TestEntry(e, skipDangerous, testAudio, available, raises).1
  }

  /**
   * `test_all_commands` makes one record per entry, in configuration order,
   * naming that entry's command and keys; an audio command, when audio is not
   * tested, is skipped; and every record is coherent.
   */
  lemma AllResultsShape(es: seq<Entry>, skipDangerous: bool, testAudio: bool, available: bool, raises: Call -> bool)
    ensures var rs := AllResults(es, skipDangerous, testAudio, available, raises);
      && |rs| == |es|
      && forall i :: 0 <= i < |es| ==>
           && rs[i].command == es[i].command && rs[i].keys == es[i].keys
           && Coherent(rs[i])
           && (!testAudio && IsAudio(es[i].command) ==> rs[i].skipped && !rs[i].success)
           && (rs[i].skipped <==> !Eligible(es[i], skipDangerous, testAudio))
  {
  }

  /**
   * With the keyboard library present, a run sends exactly the keys of the
   * eligible entries, in order, and nothing else; without it, nothing at all.
   */
  lemma {:induction false} AllCallsAreEligibleSends(es: seq<Entry>, skipDangerous: bool, testAudio: bool, available: bool, raises: Call -> bool)
    ensures AllCalls(es, skipDangerous, testAudio, available, raises) == if available then EligibleSends(es, skipDangerous, testAudio) else []
    decreases |es|
  {
    if es != [] {
      AllCallsAreEligibleSends(es[..|es| - 1], skipDangerous, testAudio, available, raises);
    }
  }

  /** The records of `test_selected_commands`, command by command. */
  function SelectedResults(m: map<string, string>, commands: seq<string>, skipDangerous: bool, available: bool, raises: Call -> bool)
    : seq<TestResult>
  {
    seq(|commands|, i requires 0 <= i < |commands| =>
      TestSelected(if commands[i] in m then Some(m[commands[i]]) else None, commands[i], skipDangerous, available, raises).0)
  }

  /** The backend calls of `test_selected_commands`, in order. */
  function SelectedCalls(m: map<string, string>, commands: seq<string>, skipDangerous: bool, available: bool, raises: Call -> bool)
    : seq<Call>
    decreases |commands|
  {
    if commands == [] then []
    else
      var c := commands[|commands| - 1];
      SelectedCalls(m, commands[..|commands| - 1], skipDangerous, available, raises)
        + TestSelected(if c in m then Some(m[c]) else None, c, skipDangerous, available, raises).1
  }

  /** A selected command without a (non-empty) binding is recorded as skipped with empty keys, and nothing is sent for it. */
  lemma SelectedMissing(m: map<string, string>, commands: seq<string>, skipDangerous: bool, available: bool, raises: Call -> bool)
    ensures var rs := SelectedResults(m, commands, skipDangerous, available, raises);
      && |rs| == |commands|
      && forall i :: 0 <= i < |commands| ==>
           && rs[i].command == commands[i] && Coherent(rs[i])
           && (commands[i] !in m || m[commands[i]] == "" ==> rs[i] == TestResult(commands[i], "", false, true, NotInConfig))
           && (commands[i] in m && m[commands[i]] != "" ==> rs[i].keys == m[commands[i]])
  {
  }

  /** How many records report success. */
  function Successful(rs: seq<TestResult>): nat
    decreases |rs|
  {
    if rs == [] then 0 else Successful(rs[..|rs| - 1]) + (if rs[|rs| - 1].success then 1 else 0)
  }

  /** How many records report neither success nor a skip. */
  function Failed(rs: seq<TestResult>): nat
    decreases |rs|
  {
    if rs == [] then 0 else Failed(rs[..|rs| - 1]) + (if !rs[|rs| - 1].success && !rs[|rs| - 1].skipped then 1 else 0)
  }

  /** How many records report a skip. */
  function Skipped(rs: seq<TestResult>): nat
    decreases |rs|
  {
    if rs == [] then 0 else Skipped(rs[..|rs| - 1]) + (if rs[|rs| - 1].skipped then 1 else 0)
  }

  /** When no record is both a success and a skip, the summary's three counts partition the records. */
  lemma {:induction false} SummaryPartition(rs: seq<TestResult>)
    requires forall i :: 0 <= i < |rs| ==> Coherent(rs[i])
    ensures Successful(rs) + Failed(rs) + Skipped(rs) == |rs|
    decreases |rs|
  {
    if rs != [] {
      SummaryPartition(rs[..|rs| - 1]);
    }
  }

  /** The tester: the configuration it reads, whether the keyboard library loaded, and the last run's records. */
  class ShortcutTester {
    const config: ShortcutConfig
    const keyboardAvailable: bool
    var testResults: seq<TestResult>

    /** A tester over the given configuration, with no results yet. */
    constructor (config: ShortcutConfig, keyboardAvailable: bool)
      ensures this.config == config && this.keyboardAvailable == keyboardAvailable && testResults == []
    {
      this.config := config;
      this.keyboardAvailable := keyboardAvailable;
      testResults := [];
    }

    /** `test_all_commands`: the results are reset, then one record is appended per entry. */
    method TestAllCommands(skipDangerous: bool, testAudio: bool, raises: Call -> bool) returns (results: seq<TestResult>, calls: seq<Call>)
      modifies this
      ensures results == testResults == AllResults(config.shortcuts, skipDangerous, testAudio, keyboardAvailable, raises)
      ensures calls == AllCalls(config.shortcuts, skipDangerous, testAudio, keyboardAvailable, raises)
    {
      testResults := [];
      calls := [];
      var es := config.shortcuts;
      var i := 0;
      while i < |es|
        invariant 0 <= i <= |es| && es == config.shortcuts
        invariant testResults == AllResults(es[..i], skipDangerous, testAudio, keyboardAvailable, raises)
        invariant calls == AllCalls(es[..i], skipDangerous, testAudio, keyboardAvailable, raises)
      {
        var e := es[i];
        var result, sent;
        if !testAudio && IsAudio(e.command) {
          result, sent := TestResult(e.command, e.keys, false, true, AudioSkipped), [];
        } else {
          var r := TestCommand(e.command, e.keys, skipDangerous, keyboardAvailable, raises);
          result, sent := r.0, r.1;
        }
        testResults := testResults + [result];
        calls := calls + sent;
        assert es[..i + 1][..i] == es[..i];
        i := i + 1;
      }
      assert es[..i] == es;
      results := testResults;
    }

    /** `test_selected_commands`: the results are reset, then one record is appended per requested command. */
    method TestSelectedCommands(commands: seq<string>, skipDangerous: bool, raises: Call -> bool) returns (results: seq<TestResult>, calls: seq<Call>)
      modifies this
      ensures results == testResults == SelectedResults(config.commandToKeys, commands, skipDangerous, keyboardAvailable, raises)
      ensures calls == SelectedCalls(config.commandToKeys, commands, skipDangerous, keyboardAvailable, raises)
    {
      testResults := [];
      calls := [];
      var i := 0;
      while i < |commands|
        invariant 0 <= i <= |commands|
        invariant testResults == SelectedResults(config.commandToKeys, commands[..i], skipDangerous, keyboardAvailable, raises)
        invariant calls == SelectedCalls(config.commandToKeys, commands[..i], skipDangerous, keyboardAvailable, raises)
      {
        var command := commands[i];
        var keys := config.GetShortcut(command);
        var result, sent;
        if keys.None? || keys.value == "" {
          result, sent := TestResult(command, "", false, true, NotInConfig), [];
        } else {
          var r := TestCommand(command, keys.value, skipDangerous, keyboardAvailable, raises);
          result, sent := r.0, r.1;
        }
        testResults := testResults + [result];
        calls := calls + sent;
        assert commands[..i + 1][..i] == commands[..i];
        i := i + 1;
      }
      assert commands[..i] == commands;
      results := testResults;
    }
  }
}
