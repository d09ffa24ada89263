/**
 * The shortcut table of shortcut_config.py: an ordered list of entries plus a
 * command-to-keys map, edited in place and persisted through an abstract save.
 */
module Shortcuts {
  import opened Common

  /** One configured shortcut: the spoken command, its "+"-joined key names and a description. */
  datatype Entry = Entry(command: string, keys: string, description: string)

  /** What reading the configuration file produced. */
  datatype LoadSource =
    | Missing                      // the file does not exist
    | Malformed                    // empty document, no 'shortcuts' key, or a read/parse error
    | Loaded(entries: seq<Entry>)  // the document's 'shortcuts' list
    | BadEntries(stored: seq<Entry>)
      // a 'shortcuts' list with an item lacking 'command' or 'keys': the list is
      // stored before the map comprehension raises; `stored` is that list with
      // every entry complete (the missing field itself is not represented)

  /** The commands named by a list of entries. */
  function Commands(es: seq<Entry>): set<string>
  {
    set e | e in es :: e.command
  }

  /** No two entries name the same command. */
  predicate Unique(es: seq<Entry>)
  {
    forall i, j :: 0 <= i < j < |es| ==> es[i].command != es[j].command
  }

  /** The dict comprehension of load_config: entries in order, so a later duplicate wins. */
  function BuildMap(es: seq<Entry>): map<string, string>
  {
    if es == [] then map[] else BuildMap(es[..|es| - 1])[es[|es| - 1].command := es[|es| - 1].keys]
  }

  /** The map's keys are exactly the listed commands. */
  lemma {:induction false} BuildMapKeys(es: seq<Entry>)
    ensures BuildMap(es).Keys == Commands(es)
  {
    if es != [] {
      var init := es[..|es| - 1];
      BuildMapKeys(init);
      assert es == init + [es[|es| - 1]];
      assert Commands(es) == Commands(init) + {es[|es| - 1].command};
    }
  }

  /** A command maps to the keys of the last entry that names it. */
  lemma {:induction false} BuildMapLastWins(es: seq<Entry>, i: nat)
    requires i < |es|
    requires forall j :: i < j < |es| ==> es[j].command != es[i].command
    ensures es[i].command in BuildMap(es) && BuildMap(es)[es[i].command] == es[i].keys
  {
    if i < |es| - 1 {
      BuildMapLastWins(es[..|es| - 1], i);
    }
  }

  /** With unique commands, every listed command maps to its own entry's keys. */
  lemma BuildMapUnique(es: seq<Entry>)
    requires Unique(es)
    ensures BuildMap(es).Keys == Commands(es)
    ensures forall i :: 0 <= i < |es| ==> BuildMap(es)[es[i].command] == es[i].keys
  {
    BuildMapKeys(es);
    forall i | 0 <= i < |es| ensures BuildMap(es)[es[i].command] == es[i].keys {
      BuildMapLastWins(es, i);
    }
  }

  /** The index of the first entry naming `command`, as the loops of set_shortcut and remove_shortcut find it. */
  function FirstIndex(es: seq<Entry>, command: string): (r: Option<nat>)
    ensures r.Some? ==> r.value < |es| && es[r.value].command == command
    ensures r.Some? ==> forall j :: 0 <= j < r.value ==> es[j].command != command
    ensures r.None? <==> command !in Commands(es)
  {
    if es == [] then None
    else if es[0].command == command then Some(0)
    else match FirstIndex(es[1..], command)
      case None => None
      case Some(i) => Some(i + 1)
  }

  /** An existing entry after set_shortcut: new keys, and a new description only when one is given. */
  function Updated(e: Entry, keys: string, description: string): Entry
  {
    e.(keys := keys, description := if description != "" then description else e.description)
  }

  /** The entry list after set_shortcut. */
  function SetEntries(es: seq<Entry>, command: string, keys: string, description: string): seq<Entry>
  {
    match FirstIndex(es, command)
    case Some(i) => es[i := Updated(es[i], keys, description)]
    case None => es + [Entry(command, keys, description)]
  }

  /** The entry list after remove_shortcut. */
  function RemoveEntry(es: seq<Entry>, command: string): seq<Entry>
  {
    match FirstIndex(es, command)
    case Some(i) => es[..i] + es[i + 1..]
    case None => es
  }

  /**
   * set_shortcut on a listed command updates that first entry in place and nothing
   * else; on a new command it appends one entry and leaves the others as they were.
   */
  lemma SetEntriesShape(es: seq<Entry>, command: string, keys: string, description: string)
    ensures var r := SetEntries(es, command, keys, description);
      if command in Commands(es) then
        && |r| == |es|
        && var i := FirstIndex(es, command).value;
        && r[i].command == command && r[i].keys == keys
        && r[i].description == (if description == "" then es[i].description else description)
        && forall j :: 0 <= j < |es| && j != i ==> r[j] == es[j]
      else
        r == es + [Entry(command, keys, description)]
  {
  }

  /** A list with unique commands builds `m` when it names exactly m's keys, each with m's value. */
  lemma BuildMapEquals(r: seq<Entry>, m: map<string, string>)
    requires Unique(r) && Commands(r) == m.Keys
    requires forall j :: 0 <= j < |r| ==> m[r[j].command] == r[j].keys
    ensures BuildMap(r) == m
  {
    BuildMapUnique(r);
    forall x | x in m ensures BuildMap(r)[x] == m[x] {
      var j :| 0 <= j < |r| && r[j].command == x;
    }
  }

  /** Replacing an entry by one naming the same command keeps the commands, and their uniqueness. */
  lemma ReplaceSameCommand(es: seq<Entry>, i: nat, e: Entry)
    requires i < |es| && e.command == es[i].command
    ensures Commands(es[i := e]) == Commands(es)
    ensures Unique(es) ==> Unique(es[i := e])
  {
    var r := es[i := e];
    assert forall j :: 0 <= j < |r| ==> r[j].command == es[j].command;
    forall x | x in Commands(es) ensures x in Commands(r) {
      var j :| 0 <= j < |es| && es[j].command == x;
      assert r[j] in r;
    }
  }

  /** set_shortcut on a listed command: the map gains the new keys and the list stays unique. */
  lemma SetExistingConsistent(es: seq<Entry>, command: string, keys: string, description: string, i: nat)
    requires Unique(es) && FirstIndex(es, command) == Some(i)
    ensures var r := SetEntries(es, command, keys, description);
      Unique(r) && BuildMap(r) == BuildMap(es)[command := keys]
  {
    var r := SetEntries(es, command, keys, description);
    var m := BuildMap(es)[command := keys];
    assert r == es[i := Updated(es[i], keys, description)];
    ReplaceSameCommand(es, i, Updated(es[i], keys, description));
    BuildMapUnique(es);
    forall j | 0 <= j < |r| ensures m[r[j].command] == r[j].keys {
      if j != i {
        assert r[j] == es[j];
      }
    }
    BuildMapEquals(r, m);
  }

  /** set_shortcut on a new command: appending extends the map and keeps the list unique. */
  lemma SetNewConsistent(es: seq<Entry>, command: string, keys: string, description: string)
    requires Unique(es) && FirstIndex(es, command).None?
    ensures var r := SetEntries(es, command, keys, description);
      Unique(r) && BuildMap(r) == BuildMap(es)[command := keys]
  {
    var r := SetEntries(es, command, keys, description);
    assert r == es + [Entry(command, keys, description)];
    assert r[..|r| - 1] == es;
    forall j | 0 <= j < |es| ensures es[j].command != command {
      assert es[j] in es;
    }
  }

  /** set_shortcut keeps the commands unique and the map equal to the one load_config would build. */
  lemma SetKeepsConsistent(es: seq<Entry>, command: string, keys: string, description: string)
    requires Unique(es)
    ensures Unique(SetEntries(es, command, keys, description))
    ensures BuildMap(SetEntries(es, command, keys, description)) == BuildMap(es)[command := keys]
  {
    match FirstIndex(es, command)
    case Some(i) => SetExistingConsistent(es, command, keys, description, i);
    case None => SetNewConsistent(es, command, keys, description);
  }

  /** Dropping index `i` keeps the entries before it and shifts every later one down by one. */
  lemma DropAt(es: seq<Entry>, i: nat, r: seq<Entry>)
    requires i < |es| && r == es[..i] + es[i + 1..]
    ensures |r| == |es| - 1
    ensures forall j :: 0 <= j < i ==> r[j] == es[j]
    ensures forall j :: i <= j < |r| ==> r[j] == es[j + 1]
  {
  }

  /** Dropping one entry of a unique list keeps it unique. */
  lemma DropAtUnique(es: seq<Entry>, i: nat)
    requires i < |es| && Unique(es)
    ensures Unique(es[..i] + es[i + 1..])
  {
    DropAt(es, i, es[..i] + es[i + 1..]);
  }

  /** Dropping the only entry naming a command removes exactly that command. */
  lemma DropAtCommands(es: seq<Entry>, i: nat)
    requires i < |es| && Unique(es)
    ensures Commands(es[..i] + es[i + 1..]) == Commands(es) - {es[i].command}
  {
    var r := es[..i] + es[i + 1..];
    DropAt(es, i, r);
    forall x | x in Commands(r) ensures x in Commands(es) - {es[i].command} {
      var e :| e in r && e.command == x;
      var j :| 0 <= j < |r| && r[j] == e;
      if j < i { assert es[j] in es; } else { assert es[j + 1] in es; }
    }
    forall x | x in Commands(es) - {es[i].command} ensures x in Commands(r) {
      var e :| e in es && e.command == x;
      var j :| 0 <= j < |es| && es[j] == e;
      if j < i { assert r[j] in r; } else { assert r[j - 1] in r; }
    }
  }

  /** remove_shortcut on a listed command: the rest stays unique and the map loses that key. */
  lemma RemoveExistingConsistent(es: seq<Entry>, command: string, i: nat)
    requires Unique(es) && FirstIndex(es, command) == Some(i)
    ensures var r := RemoveEntry(es, command);
      Unique(r) && BuildMap(r) == BuildMap(es) - {command}
  {
    var r := es[..i] + es[i + 1..];
    assert RemoveEntry(es, command) == r;
    DropAt(es, i, r);
    DropAtUnique(es, i);
    DropAtCommands(es, i);
    BuildMapUnique(es);
    BuildMapEquals(r, BuildMap(es) - {command});
  }

  /** remove_shortcut keeps the commands unique and drops exactly the removed command's key. */
  lemma RemoveKeepsConsistent(es: seq<Entry>, command: string)
    requires Unique(es)
    ensures Unique(RemoveEntry(es, command))
    ensures BuildMap(RemoveEntry(es, command)) == BuildMap(es) - {command}
  {
    match FirstIndex(es, command)
    case None =>
      assert command !in BuildMap(es) by { BuildMapKeys(es); }
      assert BuildMap(es) - {command} == BuildMap(es);
    case Some(i) =>
      RemoveExistingConsistent(es, command, i);
  }

  /**
   * The shortcut table. `shortcuts` is the ordered list of entries, `commandToKeys`
   * the lookup map; both are updated in place by the editing methods.
   */
  class ShortcutConfig {
    var shortcuts: seq<Entry>
    var commandToKeys: map<string, string>

    /** The map agrees with the list, as after a successful load with unique commands. */
    ghost predicate Consistent()
      reads this
    {
      Unique(shortcuts) && commandToKeys == BuildMap(shortcuts)
    }

    /** A new table starts empty and immediately tries to load the configuration file. */
    constructor (source: LoadSource)
      ensures source.Loaded? ==> shortcuts == source.entries && commandToKeys == BuildMap(source.entries)
      ensures source.BadEntries? ==> shortcuts == source.stored && commandToKeys == map[]
      ensures source.Missing? || source.Malformed? ==> shortcuts == [] && commandToKeys == map[]
    {
      shortcuts := [];
      commandToKeys := map[];
      new;
      var _ := LoadConfig(source);
    }

    /**
     * load_config: replaces both fields on success; on a list with a broken item
     * the list is replaced but the map is not, and the load fails; otherwise a
     * failure leaves both untouched.
     */
    method LoadConfig(source: LoadSource) returns (ok: bool)
      modifies this
      ensures ok <==> source.Loaded?
      ensures ok ==> shortcuts == source.entries && commandToKeys == BuildMap(source.entries)
      ensures source.BadEntries? ==> shortcuts == source.stored && commandToKeys == old(commandToKeys)
      ensures source.Missing? || source.Malformed? ==> shortcuts == old(shortcuts) && commandToKeys == old(commandToKeys)
    {
      match source
      case Missing =>
        ok := false;
      case Malformed =>
        ok := false;
      case BadEntries(stored) =>
        shortcuts := stored;
        ok := false;
      case Loaded(entries) =>
        shortcuts := entries;
        commandToKeys := BuildMap(entries);
        ok := true;
    }

    /** get_shortcut: the mapped keys, or None for an unknown command. */
    function GetShortcut(command: string): (r: Option<string>)
      reads this
      ensures r.Some? <==> command in commandToKeys
      ensures r.Some? ==> r.value == commandToKeys[command]
    {
      if command in commandToKeys then Some(commandToKeys[command]) else None
    }

    /**
     * set_shortcut: updates the first entry naming `command` in place (or appends a new
     * entry), updates the map, then returns what saving returns (`saved`).
     */
    method SetShortcut(command: string, keys: string, description: string, saved: bool) returns (ok: bool)
      modifies this
      ensures ok == saved
      ensures shortcuts == SetEntries(old(shortcuts), command, keys, description)
      ensures commandToKeys == old(commandToKeys)[command := keys]
      ensures old(Consistent()) ==> Consistent()
    {
      if Unique(shortcuts) {
        SetKeepsConsistent(shortcuts, command, keys, description);
      }
      var i := 0;
      while i < |shortcuts|
        invariant 0 <= i <= |shortcuts|
        invariant shortcuts == old(shortcuts) && commandToKeys == old(commandToKeys)
        invariant forall j :: 0 <= j < i ==> shortcuts[j].command != command
      {
        if shortcuts[i].command == command {
          var entry := shortcuts[i].(keys := keys);
          if description != "" {
            entry := entry.(description := description);
          }
          shortcuts := shortcuts[i := entry];
          commandToKeys := commandToKeys[command := keys];
          ok := saved;
          return;
        }
        i := i + 1;
      }
      shortcuts := shortcuts + [Entry(command, keys, description)];
      commandToKeys := commandToKeys[command := keys];
      ok := saved;
    }

    /**
     * remove_shortcut: drops the first entry naming `command` and its map key, then returns
     * what saving returns; an unknown command returns false and changes nothing.
     */
    method RemoveShortcut(command: string, saved: bool) returns (ok: bool)
      modifies this
      ensures command in Commands(old(shortcuts)) ==> ok == saved
      ensures command !in Commands(old(shortcuts)) ==> !ok
      ensures shortcuts == RemoveEntry(old(shortcuts), command)
      ensures commandToKeys == if command in Commands(old(shortcuts))
                               then old(commandToKeys) - {command} else old(commandToKeys)
      ensures old(Consistent()) ==> Consistent()
    {
      if Unique(shortcuts) {
        RemoveKeepsConsistent(shortcuts, command);
      }
      var i := 0;
      while i < |shortcuts|
        invariant 0 <= i <= |shortcuts|
        invariant shortcuts == old(shortcuts) && commandToKeys == old(commandToKeys)
        invariant forall j :: 0 <= j < i ==> shortcuts[j].command != command
      {
        if shortcuts[i].command == command {
          shortcuts := shortcuts[..i] + shortcuts[i + 1..];
          commandToKeys := commandToKeys - {command};
          ok := saved;
          return;
        }
        i := i + 1;
      }
      ok := false;
    }
  }

  /** With a consistent table, get_shortcut finds exactly the listed commands' own keys. */
  lemma GetShortcutOfConsistent(c: ShortcutConfig, command: string)
    requires c.Consistent()
    ensures c.GetShortcut(command).None? <==> command !in Commands(c.shortcuts)
    ensures command in Commands(c.shortcuts) ==>
      c.GetShortcut(command) == Some(c.shortcuts[FirstIndex(c.shortcuts, command).value].keys)
  {
    BuildMapUnique(c.shortcuts);
  }
}
