/**
 * The two keyboard controllers of controller.py: one drives the `keyboard`
 * library, the other `pyautogui`. A controller's availability is fixed when it
 * is built; each send operation makes at most one backend call and reports
 * whether that call returned normally.
 */
module Controller {
  import opened Text

  /** The names pyautogui's key table maps to themselves, group by group. */
  const FunctionKeys: set<string> := {"f1", "f2", "f3", "f4", "f5", "f6", "f7", "f8", "f9", "f10", "f11", "f12"}
  const ControlKeys: set<string> := {"ctrl", "alt", "shift", "win"}
  const ArrowKeys: set<string> := {"up", "down", "left", "right"}
  const SpecialKeys: set<string> := {
    "enter", "space", "tab", "escape", "backspace", "delete",
    "home", "end", "pageup", "pagedown", "insert", "printscreen"
  }
  const VolumeKeys: set<string> := {"volumemute", "volumeup", "volumedown"}
  const MediaKeys: set<string> := {"playpause", "nexttrack", "prevtrack"}
  const CanonicalKeys: set<string> := FunctionKeys + ControlKeys + ArrowKeys + SpecialKeys + VolumeKeys + MediaKeys

  /** The aliases of the key table. */
  const KeyAliasMap: map<string, string> := map[
    "control" := "ctrl", "cmd" := "command", "windows" := "win",
    "return" := "enter", "esc" := "escape", "print screen" := "printscreen"
  ]

  /** pyautogui's key-name table: every canonical name to itself, plus the aliases. */
  const KeyMapping: map<string, string> := (map k | k in CanonicalKeys :: k) + KeyAliasMap

  /** A string with no upper-case ASCII letter. */
  predicate IsLowered(s: string)
  {
    forall i :: 0 <= i < |s| ==> !('A' <= s[i] <= 'Z')
  }

  /** Lower-casing changes nothing on a lowered string, and always yields one. */
  lemma LowerOfLowered(s: string)
    ensures IsLowered(Lower(s))
    ensures IsLowered(s) ==> Lower(s) == s
  {
  }

  lemma FunctionKeysLowered()
    ensures forall k | k in FunctionKeys :: IsLowered(k)
  {
  }

  lemma ControlKeysLowered()
    ensures forall k | k in ControlKeys :: IsLowered(k)
  {
  }

  lemma ArrowKeysLowered()
    ensures forall k | k in ArrowKeys :: IsLowered(k)
  {
  }

  lemma SpecialKeysLowered()
    ensures forall k | k in SpecialKeys :: IsLowered(k)
  {
  }

  lemma VolumeKeysLowered()
    ensures forall k | k in VolumeKeys :: IsLowered(k)
  {
  }

  lemma MediaKeysLowered()
    ensures forall k | k in MediaKeys :: IsLowered(k)
  {
  }

  /** Every canonical name is lower-case. */
  lemma CanonicalKeysLowered()
    ensures forall k | k in CanonicalKeys :: IsLowered(k)
  {
    FunctionKeysLowered();
    ControlKeysLowered();
    ArrowKeysLowered();
    SpecialKeysLowered();
    VolumeKeysLowered();
    MediaKeysLowered();
  }

  /** A lookup in the table: an alias gives its target, any other key itself. */
  lemma KeyMappingLookup(k: string)
    ensures k in KeyMapping <==> k in CanonicalKeys || k in KeyAliasMap
    ensures k in KeyMapping ==> KeyMapping[k] == if k in KeyAliasMap then KeyAliasMap[k] else k
  {
  }

  /** The keys of the alias table. */
  lemma AliasKeys()
    ensures KeyAliasMap.Keys == {"control", "cmd", "windows", "return", "esc", "print screen"}
  {
  }

  /** No alias target is itself an alias. */
  lemma AliasTargetsNotAliases()
    ensures forall k | k in KeyAliasMap :: KeyAliasMap[k] !in KeyAliasMap
  {
    AliasKeys();
  }

  /** Every alias target is lower-case. */
  lemma AliasTargetsLowered()
    ensures forall k | k in KeyAliasMap :: IsLowered(KeyAliasMap[k])
  {
    AliasKeys();
  }

  /** Every alias target but "command" is a canonical name. */
  lemma AliasTargetsCanonical()
    ensures forall k | k in KeyAliasMap :: KeyAliasMap[k] in CanonicalKeys || KeyAliasMap[k] == "command"
  {
    AliasKeys();
    assert "ctrl" in ControlKeys && "win" in ControlKeys;
    assert "enter" in SpecialKeys && "escape" in SpecialKeys && "printscreen" in SpecialKeys;
  }

  /** Alias targets are lower-case, are not aliases themselves, and are canonical names or "command". */
  lemma AliasTargets()
    ensures forall k | k in KeyAliasMap ::
      && KeyAliasMap[k] !in KeyAliasMap
      && IsLowered(KeyAliasMap[k])
      && (KeyAliasMap[k] in CanonicalKeys || KeyAliasMap[k] == "command")
  {
    AliasTargetsNotAliases();
    AliasTargetsLowered();
    AliasTargetsCanonical();
  }

  /**
   * Every value of the table is lower-case and canonical: it is either a key that
   * maps to itself or not a key at all ("command").
   */
  lemma KeyMappingCanonical()
    ensures forall k | k in KeyMapping :: IsLowered(KeyMapping[k])
    ensures forall k | k in KeyMapping ::
      KeyMapping[k] !in KeyMapping || KeyMapping[KeyMapping[k]] == KeyMapping[k]
  {
    CanonicalKeysLowered();
    AliasTargets();
    forall k | k in KeyMapping
      ensures IsLowered(KeyMapping[k])
      ensures KeyMapping[k] !in KeyMapping || KeyMapping[KeyMapping[k]] == KeyMapping[k]
    {
      KeyMappingLookup(k);
      KeyMappingLookup(KeyMapping[k]);
    }
  }

  /** `_normalize_key`: lower-case the name, then look it up, falling back to the lowered name. */
  function NormalizeKey(key: string): (r: string)
    ensures IsLowered(r)
    ensures r in KeyMapping ==> KeyMapping[r] == r
  {
    KeyMappingCanonical();
    LowerOfLowered(key);
    var lowered := Lower(key);
    if lowered in KeyMapping then KeyMapping[lowered] else lowered
  }

  /** Normalising twice is normalising once. */
  lemma NormalizeKeyIdempotent(key: string)
    ensures NormalizeKey(NormalizeKey(key)) == NormalizeKey(key)
  {
    LowerOfLowered(NormalizeKey(key));
  }

  /** Normalisation ignores letter case: a name and its lowered form normalise alike. */
  lemma NormalizeKeyCaseInsensitive(key: string)
    ensures NormalizeKey(Lower(key)) == NormalizeKey(key)
  {
    LowerIdempotent(key);
  }

  /** A name that lower-cases to an alias normalises to that alias's target. */
  lemma AliasNormalizes(key: string)
    requires Lower(key) in KeyAliasMap
    ensures NormalizeKey(key) == KeyAliasMap[Lower(key)]
  {
    KeyMappingLookup(Lower(key));
  }

  /** Every alias is itself lower-case. */
  lemma AliasKeysLowered()
    ensures forall k | k in KeyAliasMap :: IsLowered(k)
  {
    AliasKeys();
  }

  /** An alias written in lower case normalises to its target. */
  lemma LoweredAliasNormalizes(key: string)
    requires key in KeyAliasMap
    ensures NormalizeKey(key) == KeyAliasMap[key]
  {
    AliasKeysLowered();
    LowerOfLowered(key);
    AliasNormalizes(key);
  }

  /** Lower-casing the two mixed-case spellings of the examples below. */
  lemma LowerUpperControl()
    ensures Lower("CONTROL") == "control"
  {
    assert forall i | 0 <= i < 7 :: Lower("CONTROL")[i] == "control"[i];
  }

  lemma LowerCapitalEsc()
    ensures Lower("Esc") == "esc"
  {
    assert forall i | 0 <= i < 3 :: Lower("Esc")[i] == "esc"[i];
  }

  /** Each alias of the table, one at a time. */
  lemma ControlAlias()
    ensures NormalizeKey("control") == "ctrl"
  {
    LoweredAliasNormalizes("control");
  }

  lemma UpperControlAlias()
    ensures NormalizeKey("CONTROL") == "ctrl"
  {
    LowerUpperControl();
    AliasNormalizes("CONTROL");
  }

  lemma CmdAlias()
    ensures NormalizeKey("cmd") == "command"
  {
    LoweredAliasNormalizes("cmd");
  }

  lemma WindowsAlias()
    ensures NormalizeKey("windows") == "win"
  {
    LoweredAliasNormalizes("windows");
  }

  lemma ReturnAlias()
    ensures NormalizeKey("return") == "enter"
  {
    LoweredAliasNormalizes("return");
  }

  lemma EscAlias()
    ensures NormalizeKey("Esc") == "escape"
  {
    LowerCapitalEsc();
    AliasNormalizes("Esc");
  }

  lemma PrintScreenAlias()
    ensures NormalizeKey("print screen") == "printscreen"
  {
    LoweredAliasNormalizes("print screen");
  }

  /** The six aliases of the table, whatever their letter case. */
  lemma KeyAliases()
    ensures NormalizeKey("control") == "ctrl" && NormalizeKey("CONTROL") == "ctrl"
    ensures NormalizeKey("cmd") == "command" && NormalizeKey("windows") == "win"
    ensures NormalizeKey("return") == "enter" && NormalizeKey("Esc") == "escape"
    ensures NormalizeKey("print screen") == "printscreen"
  {
    ControlAlias();
    UpperControlAlias();
    CmdAlias();
    WindowsAlias();
    ReturnAlias();
    EscAlias();
    PrintScreenAlias();
  }

  /** Which library a controller drives. */
  datatype Backend = KeyboardLib | PyAutoGui

  /** One call into a backend library. */
  datatype Call =
    | KeyboardSend(hotkey: string)              // keyboard.send
    | KeyboardWrite(text: string, delay: real)  // keyboard.write
    | Press(key: string)                        // pyautogui.press
    | Hotkey(keys: seq<string>)                 // pyautogui.hotkey
    | TypeWrite(text: string, interval: real)   // pyautogui.typewrite

  /** What a send operation returned, and the backend calls it made. */
  datatype Sent = Sent(ok: bool, calls: seq<Call>)

  /** A controller: its backend and whether that library could be imported. */
  datatype KeyController = KeyController(backend: Backend, available: bool)

  /**
   * The shape every send operation shares: an unavailable controller returns
   * false without touching the backend; otherwise the one call is made and an
   * exception it raises (`raises`) becomes a false result.
   */
  function Guarded(available: bool, call: Call, raises: Call -> bool): (r: Sent)
    ensures !available ==> !r.ok && r.calls == []
    ensures available ==> r.calls == [call] && (r.ok <==> !raises(call))
  {
    if !available then Sent(false, []) else Sent(!raises(call), [call])
  }

  /** The backend call of `send_key`: keyboard sends the name as given, pyautogui presses the normalised name. */
  function KeyCall(backend: Backend, key: string): Call
  {
    match backend
    case KeyboardLib => KeyboardSend(key)
    case PyAutoGui => Press(NormalizeKey(key))
  }

  /** The backend call of `send_hotkey`: keyboard sends the names joined by "+", pyautogui normalises each. */
  function HotkeyCall(backend: Backend, keys: seq<string>): Call
  {
    match backend
    case KeyboardLib => KeyboardSend(Join(keys, '+'))
    case PyAutoGui => Hotkey(seq(|keys|, i requires 0 <= i < |keys| => NormalizeKey(keys[i])))
  }

  /** The backend call of `type_text`. */
  function TextCall(backend: Backend, text: string, interval: real): Call
  {
    match backend
    case KeyboardLib => KeyboardWrite(text, interval)
    case PyAutoGui => TypeWrite(text, interval)
  }

  /** `send_key` of either controller. */
  function SendKey(c: KeyController, key: string, raises: Call -> bool): (r: Sent)
    ensures !c.available ==> r == Sent(false, [])
    ensures c.available ==> r.calls == [KeyCall(c.backend, key)] && (r.ok <==> !raises(r.calls[0]))
  {
    Guarded(c.available, KeyCall(c.backend, key), raises)
  }

  /** `send_hotkey` of either controller. */
  function SendHotkey(c: KeyController, keys: seq<string>, raises: Call -> bool): (r: Sent)
    ensures !c.available ==> r == Sent(false, [])
    ensures c.available ==> r.calls == [HotkeyCall(c.backend, keys)] && (r.ok <==> !raises(r.calls[0]))
  {
    Guarded(c.available, HotkeyCall(c.backend, keys), raises)
  }

  /** `type_text` of either controller. */
  function TypeText(c: KeyController, text: string, interval: real, raises: Call -> bool): (r: Sent)
    ensures !c.available ==> r == Sent(false, [])
    ensures c.available ==> r.calls == [TextCall(c.backend, text, interval)] && (r.ok <==> !raises(r.calls[0]))
  {
    Guarded(c.available, TextCall(c.backend, text, interval), raises)
  }

  /**
   * pyautogui's `send_hotkey` hands over as many names as it was given, in the
   * same order, each normalised, so pressing them again normalised changes nothing.
   */
  lemma PyAutoGuiHotkeyKeys(keys: seq<string>)
    ensures var call := HotkeyCall(PyAutoGui, keys);
      && |call.keys| == |keys|
      && (forall i :: 0 <= i < |keys| ==> call.keys[i] == NormalizeKey(keys[i]))
      && HotkeyCall(PyAutoGui, call.keys) == call
  {
    var call := HotkeyCall(PyAutoGui, keys);
    forall i | 0 <= i < |keys| ensures NormalizeKey(call.keys[i]) == call.keys[i] {
      NormalizeKeyIdempotent(keys[i]);
    }
  }

  /**
   * keyboard's `send_hotkey` hands over one "+"-joined string from which the
   * key names can be split back, provided no name itself holds a "+".
   */
  lemma KeyboardHotkeyKeys(keys: seq<string>)
    requires |keys| >= 1 && forall i :: 0 <= i < |keys| ==> '+' !in keys[i]
    ensures Split(HotkeyCall(KeyboardLib, keys).hotkey, '+') == keys
  {
    SplitJoin(keys, '+');
  }
}
