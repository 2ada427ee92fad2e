/**
 * The settings store of the Electron main process: a shortcut map with
 * platform defaults and two keyed lists, the file-move pairs (keyed by
 * `alias`) and the signature templates (unique by `name` on add, found by
 * `id` on update and delete). Each operation loads the settings, changes
 * one part and saves the result. The settings file is one stored value and
 * the success of a write is a field of the store.
 */
module AppSettings {
  import opened Wrappers

  /** A list entry: a flat object of string properties. */
  type Entry = map<string, string>

  /** `entry[key]`, with `None` for `undefined`. */
  function Lookup(e: map<string, string>, key: string): (r: Option<string>)
    ensures r.Some? <==> key in e
    ensures r.Some? ==> r.value == e[key]
  {
    if key in e then Some(e[key]) else None
  }

  /** How a template literal shows a property: `undefined` when it is missing. */
  function Shown(v: Option<string>): string {
    match v
    case Some(s) => s
    case None => "undefined"
  }

  /** The three keys of the settings object. */
  datatype Settings = Settings(shortcuts: map<string, string>, fileMovePairs: seq<Entry>, signatureTemplates: seq<Entry>)

  /** A parsed settings file: `None` for a key the file does not have. */
  datatype Stored = Stored(shortcuts: Option<map<string, string>>, fileMovePairs: Option<seq<Entry>>, signatureTemplates: Option<seq<Entry>>)

  /** What reading the settings file gives: no file, a file that cannot be read or parsed, or its contents. */
  datatype SettingsFile = Missing | Unreadable | Present(stored: Stored)

  /** `DEFAULT_SETTINGS`: the quick-search shortcuts use Command on macOS and Control elsewhere. */
  function DefaultSettings(isMac: bool): (s: Settings)
    ensures s.fileMovePairs == [] && s.signatureTemplates == []
    ensures s.shortcuts.Keys == {"quickSearch", "quickSearchAlt"}
    ensures s.shortcuts["quickSearch"] == (if isMac then "Command+K" else "Control+K")
    ensures s.shortcuts["quickSearchAlt"] == (if isMac then "Command+Space" else "Control+Space")
  {
    Settings(
      map["quickSearch" := if isMac then "Command+K" else "Control+K",
          "quickSearchAlt" := if isMac then "Command+Space" else "Control+Space"],
      [], [])
  }

  function OrElse<T>(v: Option<T>, default: T): T {
    match v
    case Some(x) => x
    case None => default
  }

  /** `{ ...defaults, ...stored }`: a key the file has replaces the default as a whole. */
  function Merge(defaults: Settings, stored: Stored): (s: Settings)
    ensures stored.shortcuts.Some? ==> s.shortcuts == stored.shortcuts.value
    ensures stored.shortcuts.None? ==> s.shortcuts == defaults.shortcuts
    ensures stored.fileMovePairs.Some? ==> s.fileMovePairs == stored.fileMovePairs.value
    ensures stored.fileMovePairs.None? ==> s.fileMovePairs == defaults.fileMovePairs
    ensures stored.signatureTemplates.Some? ==> s.signatureTemplates == stored.signatureTemplates.value
    ensures stored.signatureTemplates.None? ==> s.signatureTemplates == defaults.signatureTemplates
  {
    Settings(OrElse(stored.shortcuts, defaults.shortcuts),
      OrElse(stored.fileMovePairs, defaults.fileMovePairs),
      OrElse(stored.signatureTemplates, defaults.signatureTemplates))
  }

  /** `loadSettings()`: the defaults unless the file exists and parses. */
  function LoadFrom(file: SettingsFile, isMac: bool): (s: Settings)
    ensures !file.Present? ==> s == DefaultSettings(isMac)
    ensures file.Present? ==> s == Merge(DefaultSettings(isMac), file.stored)
  {
    match file
    case Present(stored) => Merge(DefaultSettings(isMac), stored)
    case _ => DefaultSettings(isMac)
  }

  /** What `JSON.stringify(settings)` writes: every key. */
  function ToStored(s: Settings): (st: Stored)
    ensures st.shortcuts.Some? && st.fileMovePairs.Some? && st.signatureTemplates.Some?
  {
    Stored(Some(s.shortcuts), Some(s.fileMovePairs), Some(s.signatureTemplates))
  }

  /** Saved settings load back unchanged, whatever the defaults. */
  lemma SaveLoadRoundTrip(s: Settings, isMac: bool)
    ensures LoadFrom(Present(ToStored(s)), isMac) == s
  {
  }

  /** A file without any of the keys loads as the defaults. */
  lemma EmptyFileLoadsDefaults(isMac: bool)
    ensures LoadFrom(Present(Stored(None, None, None)), isMac) == LoadFrom(Missing, isMac)
  {
  }

  /** `settings.shortcuts?.[key] || DEFAULT_SETTINGS.shortcuts[key]`: a stored
      non-empty value, else the entry of the defaults' shortcut map. */
  function ShortcutOf(s: Settings, key: string, defaults: map<string, string>): (r: Option<string>)
    ensures key in s.shortcuts && s.shortcuts[key] != "" ==> r == Some(s.shortcuts[key])
    ensures !(key in s.shortcuts && s.shortcuts[key] != "") ==> r == Lookup(defaults, key)
    ensures r == Some("") ==> Lookup(defaults, key) == Some("")
  {
    if key in s.shortcuts && s.shortcuts[key] != "" then Some(s.shortcuts[key])
    else Lookup(defaults, key)
  }

  /** Setting one shortcut changes what is read for that key only. */
  lemma ShortcutAfterUpdate(s: Settings, key: string, value: string, other: string, isMac: bool)
    ensures var t := s.(shortcuts := s.shortcuts[key := value]);
      var d := DefaultSettings(isMac).shortcuts;
      ShortcutOf(t, key, d) == (if value != "" then Some(value) else Lookup(d, key))
      && (other != key ==> ShortcutOf(t, other, d) == ShortcutOf(s, other, d))
  {
  }

  /** A shortcut never stored reads as its platform default. */
  lemma DefaultShortcuts(isMac: bool)
    ensures var d := DefaultSettings(isMac).shortcuts;
      ShortcutOf(LoadFrom(Missing, isMac), "quickSearch", d) == Some(if isMac then "Command+K" else "Control+K")
    ensures var d := DefaultSettings(isMac).shortcuts;
      ShortcutOf(LoadFrom(Missing, isMac), "quickSearchAlt", d) == Some(if isMac then "Command+Space" else "Control+Space")
    ensures ShortcutOf(LoadFrom(Missing, isMac), "other", DefaultSettings(isMac).shortcuts) == None
  {
  }

  predicate Matches(e: Entry, key: string, v: Option<string>) {
    Lookup(e, key) == v
  }

  /** `list.findIndex(e => e[key] === v)`. */
  function FindIndex(list: seq<Entry>, key: string, v: Option<string>): (r: int)
    ensures -1 <= r < |list|
    ensures r == -1 <==> forall i :: 0 <= i < |list| ==> !Matches(list[i], key, v)
    ensures r >= 0 ==> Matches(list[r], key, v) && forall i :: 0 <= i < r ==> !Matches(list[i], key, v)
  {
    if list == [] then -1
    else if Matches(list[0], key, v) then 0
    else
      var j := FindIndex(list[1..], key, v);
      assert forall i :: 1 <= i < |list| ==> list[i] == list[1..][i - 1];
      if j == -1 then -1 else j + 1
  }

  /** The `find` check and `push` of an add: `None` when an entry already has the new entry's `key`. */
  function Added(list: seq<Entry>, entry: Entry, key: string): (r: Option<seq<Entry>>)
    ensures r.None? <==> exists i :: 0 <= i < |list| && Matches(list[i], key, Lookup(entry, key))
    ensures r.Some? ==> |r.value| == |list| + 1 && r.value[..|list|] == list && r.value[|list|] == entry
  {
    if FindIndex(list, key, Lookup(entry, key)) == -1 then Some(list + [entry]) else None
  }

  /** The `findIndex` and shallow merge of an update: `None` when no entry has `key` equal to `v`. */
  function Updated(list: seq<Entry>, key: string, v: string, patch: Entry): (r: Option<seq<Entry>>)
    ensures r.None? <==> forall i :: 0 <= i < |list| ==> !Matches(list[i], key, Some(v))
    ensures r.Some? ==> var k := FindIndex(list, key, Some(v));
      |r.value| == |list| && 0 <= k
      && (forall j :: 0 <= j < |list| && j != k ==> r.value[j] == list[j])
      && (forall p :: p in patch ==> p in r.value[k] && r.value[k][p] == patch[p])
      && (forall p :: p in list[k] && p !in patch ==> p in r.value[k] && r.value[k][p] == list[k][p])
      && (forall p :: p in r.value[k] ==> p in list[k] || p in patch)
  {
    var k := FindIndex(list, key, Some(v));
    if k == -1 then None else Some(list[k := list[k] + patch])
  }

  /** The `findIndex` and `splice` of a delete: `None` when no entry has `key` equal to `v`. */
  function Deleted(list: seq<Entry>, key: string, v: string): (r: Option<seq<Entry>>)
    ensures r.None? <==> forall i :: 0 <= i < |list| ==> !Matches(list[i], key, Some(v))
    ensures r.Some? ==> var k := FindIndex(list, key, Some(v));
      0 <= k && |r.value| == |list| - 1
      && (forall j :: 0 <= j < k ==> r.value[j] == list[j])
      && (forall j :: k <= j < |r.value| ==> r.value[j] == list[j + 1])
  {
    var k := FindIndex(list, key, Some(v));
    if k == -1 then None else Some(list[..k] + list[k + 1..])
  }

  /** Deleting by a key value no earlier entry has removes the entry just appended with that value. */
  lemma AddThenDelete(list: seq<Entry>, entry: Entry, key: string, v: string)
    requires Lookup(entry, key) == Some(v) && FindIndex(list, key, Some(v)) == -1
    ensures Added(list, entry, key) == Some(list + [entry])
    ensures Deleted(list + [entry], key, v) == Some(list)
  {
    var l := list + [entry];
    assert forall i :: 0 <= i < |list| ==> l[i] == list[i] && !Matches(l[i], key, Some(v));
    assert Matches(l[|list|], key, Some(v));
    assert FindIndex(l, key, Some(v)) == |list|;
    assert l[..|list|] == list && l[|list| + 1..] == [];
    assert Deleted(l, key, v) == Some(l[..|list|] + l[|list| + 1..]);
    assert l[..|list|] + l[|list| + 1..] == list;
  }

  /** A file-move pair that was added can be deleted again by its alias, giving back the list. */
  lemma AddThenDeletePair(pairs: seq<Entry>, pair: Entry, alias: string)
    requires Lookup(pair, "alias") == Some(alias) && Added(pairs, pair, "alias").Some?
    ensures Deleted(Added(pairs, pair, "alias").value, "alias", alias) == Some(pairs)
  {
    AddThenDelete(pairs, pair, "alias", alias);
  }

  /** A template added under a fresh name can only be deleted back if no earlier template shares its id. */
  lemma AddThenDeleteTemplate(templates: seq<Entry>, template: Entry, id: string)
    requires Lookup(template, "id") == Some(id) && FindIndex(templates, "id", Some(id)) == -1
    requires Added(templates, template, "name").Some?
    ensures Deleted(Added(templates, template, "name").value, "id", id) == Some(templates)
  {
    AddThenDelete(templates, template, "id", id);
  }

  /** Adding checks names, deleting goes by id: a second template with a new name but an
      existing id is added, and deleting that id then removes the older one. */
  lemma TemplateIdsNotChecked()
    ensures var old1 := map["id" := "1", "name" := "a"];
      var new1 := map["id" := "1", "name" := "b"];
      Added([old1], new1, "name") == Some([old1, new1])
      && Deleted([old1, new1], "id", "1") == Some([new1])
  {
    var old1: Entry := map["id" := "1", "name" := "a"];
    var new1: Entry := map["id" := "1", "name" := "b"];
    assert Lookup(new1, "name") == Some("b") && Lookup(old1, "name") == Some("a");
    assert FindIndex([old1], "name", Some("b")) == -1;
    assert Lookup(old1, "id") == Some("1");
    assert FindIndex([old1, new1], "id", Some("1")) == 0;
    assert Added([old1], new1, "name") == Some([old1] + [new1]);
    assert [old1] + [new1] == [old1, new1];
    assert [old1, new1][..0] + [old1, new1][1..] == [new1];
    assert Deleted([old1, new1], "id", "1") == Some([new1]);
  }

  function PairExists(alias: Option<string>): string {
    "别名 \"" + Shown(alias) + "\" 已存在"
  }

  function PairMissing(alias: string): string {
    "别名 \"" + alias + "\" 不存在"
  }

  function TemplateExists(name: Option<string>): string {
    "模板名称 \"" + Shown(name) + "\" 已存在"
  }

  function TemplateMissing(id: string): string {
    "模板 ID \"" + id + "\" 不存在"
  }

  /** The settings as the main process sees them: the file, whether a write
      to it succeeds, and the platform. This is the store as evidently
      intended: `DEFAULT_SETTINGS` is never changed, so a failed save leaves
      everything as it was. The code as written differs; see `Memory` below. */
  class SettingsStore {
    var file: SettingsFile
    var writable: bool
    const isMac: bool

    constructor (file: SettingsFile, writable: bool, isMac: bool)
      ensures this.file == file && this.writable == writable && this.isMac == isMac
    {
      this.file := file;
      this.writable := writable;
      this.isMac := isMac;
    }

    /** `loadSettings()`. */
    function Load(): (s: Settings)
      reads this
      ensures s == LoadFrom(file, isMac)
    {
      LoadFrom(file, isMac)
    }

    /** `getShortcut(key)`. */
    function GetShortcut(key: string): (r: Option<string>)
      reads this
      ensures r == ShortcutOf(LoadFrom(file, isMac), key, DefaultSettings(isMac).shortcuts)
    {
      ShortcutOf(Load(), key, DefaultSettings(isMac).shortcuts)
    }

    /** `getFileMovePairs()`: the stored pairs, or none when the file does not give them. */
    function GetFileMovePairs(): (r: seq<Entry>)
      reads this
      ensures !(file.Present? && file.stored.fileMovePairs.Some?) ==> r == []
      ensures file.Present? && file.stored.fileMovePairs.Some? ==> r == file.stored.fileMovePairs.value
    {
      Load().fileMovePairs
    }

    /** `getSignatureTemplates()`: the stored templates, or none when the file does not give them. */
    function GetSignatureTemplates(): (r: seq<Entry>)
      reads this
      ensures !(file.Present? && file.stored.signatureTemplates.Some?) ==> r == []
      ensures file.Present? && file.stored.signatureTemplates.Some? ==> r == file.stored.signatureTemplates.value
    {
      Load().signatureTemplates
    }

    /** `saveSettings(settings)`: writes every key, or reports that the write failed. */
    method Save(s: Settings) returns (saved: bool)
      modifies this
      ensures saved == writable && writable == old(writable)
      ensures file == (if saved then Present(ToStored(s)) else old(file))
      ensures saved ==> Load() == s
    {
      saved := writable;
      if saved {
        file := Present(ToStored(s));
        SaveLoadRoundTrip(s, isMac);
      }
    }

    /** `updateShortcut(key, value)`. */
    method UpdateShortcut(key: string, value: string) returns (saved: bool)
      modifies this
      ensures saved == writable && writable == old(writable)
      ensures Load() == if saved then old(Load()).(shortcuts := old(Load()).shortcuts[key := value]) else old(Load())
      ensures !saved ==> file == old(file)
    {
      var s := Load();
      s := s.(shortcuts := s.shortcuts[key := value]);
      saved := Save(s);
    }

    /** `addFileMovePair(pair)`: fails when the alias is taken; otherwise appends and saves. */
    method AddFileMovePair(pair: Entry) returns (r: Result<bool, string>)
      modifies this
      ensures writable == old(writable)
      ensures Added(old(Load()).fileMovePairs, pair, "alias").None? ==>
        r == Failure(PairExists(Lookup(pair, "alias"))) && file == old(file)
      ensures Added(old(Load()).fileMovePairs, pair, "alias").Some? ==>
        r == Success(writable)
        && Load() == (if writable then old(Load()).(fileMovePairs := old(Load()).fileMovePairs + [pair]) else old(Load()))
      ensures r != Success(true) ==> file == old(file)
    {
      var s := Load();
      var pairs := Added(s.fileMovePairs, pair, "alias");
      if pairs.None? {
        return Failure(PairExists(Lookup(pair, "alias")));
      }
      var saved := Save(s.(fileMovePairs := pairs.value));
      r := Success(saved);
    }

    /** `updateFileMovePair(alias, pair)`: fails when no pair has the alias; otherwise merges into the first that has it. */
    method UpdateFileMovePair(alias: string, pair: Entry) returns (r: Result<bool, string>)
      modifies this
      ensures writable == old(writable)
      ensures Updated(old(Load()).fileMovePairs, "alias", alias, pair).None? ==>
        r == Failure(PairMissing(alias)) && file == old(file)
      ensures Updated(old(Load()).fileMovePairs, "alias", alias, pair).Some? ==>
        r == Success(writable)
        && Load() == (if writable then old(Load()).(fileMovePairs := Updated(old(Load()).fileMovePairs, "alias", alias, pair).value) else old(Load()))
      ensures r != Success(true) ==> file == old(file)
    {
      var s := Load();
      var pairs := Updated(s.fileMovePairs, "alias", alias, pair);
      if pairs.None? {
        return Failure(PairMissing(alias));
      }
      var saved := Save(s.(fileMovePairs := pairs.value));
      r := Success(saved);
    }

    /** `deleteFileMovePair(alias)`: fails when no pair has the alias; otherwise removes the first that has it. */
    method DeleteFileMovePair(alias: string) returns (r: Result<bool, string>)
      modifies this
      ensures writable == old(writable)
      ensures Deleted(old(Load()).fileMovePairs, "alias", alias).None? ==>
        r == Failure(PairMissing(alias)) && file == old(file)
      ensures Deleted(old(Load()).fileMovePairs, "alias", alias).Some? ==>
        r == Success(writable)
        && Load() == (if writable then old(Load()).(fileMovePairs := Deleted(old(Load()).fileMovePairs, "alias", alias).value) else old(Load()))
      ensures r != Success(true) ==> file == old(file)
    {
      var s := Load();
      var pairs := Deleted(s.fileMovePairs, "alias", alias);
      if pairs.None? {
        return Failure(PairMissing(alias));
      }
      var saved := Save(s.(fileMovePairs := pairs.value));
      r := Success(saved);
    }

    /** `addSignatureTemplate(template)`: fails when the name is taken; otherwise appends and saves. */
    method AddSignatureTemplate(template: Entry) returns (r: Result<bool, string>)
      modifies this
      ensures writable == old(writable)
      ensures Added(old(Load()).signatureTemplates, template, "name").None? ==>
        r == Failure(TemplateExists(Lookup(template, "name"))) && file == old(file)
      ensures Added(old(Load()).signatureTemplates, template, "name").Some? ==>
        r == Success(writable)
        && Load() == (if writable then old(Load()).(signatureTemplates := old(Load()).signatureTemplates + [template]) else old(Load()))
      ensures r != Success(true) ==> file == old(file)
    {
      var s := Load();
      var templates := Added(s.signatureTemplates, template, "name");
      if templates.None? {
        return Failure(TemplateExists(Lookup(template, "name")));
      }
      var saved := Save(s.(signatureTemplates := templates.value));
      r := Success(saved);
    }

    /** `updateSignatureTemplate(id, template)`: fails when no template has the id; otherwise merges into the first that has it. */
    method UpdateSignatureTemplate(id: string, template: Entry) returns (r: Result<bool, string>)
      modifies this
      ensures writable == old(writable)
      ensures Updated(old(Load()).signatureTemplates, "id", id, template).None? ==>
        r == Failure(TemplateMissing(id)) && file == old(file)
      ensures Updated(old(Load()).signatureTemplates, "id", id, template).Some? ==>
        r == Success(writable)
        && Load() == (if writable then old(Load()).(signatureTemplates := Updated(old(Load()).signatureTemplates, "id", id, template).value) else old(Load()))
      ensures r != Success(true) ==> file == old(file)
    {
      var s := Load();
      var templates := Updated(s.signatureTemplates, "id", id, template);
      if templates.None? {
        return Failure(TemplateMissing(id));
      }
      var saved := Save(s.(signatureTemplates := templates.value));
      r := Success(saved);
    }

    /** `deleteSignatureTemplate(id)`: fails when no template has the id; otherwise removes the first that has it. */
    method DeleteSignatureTemplate(id: string) returns (r: Result<bool, string>)
      modifies this
      ensures writable == old(writable)
      ensures Deleted(old(Load()).signatureTemplates, "id", id).None? ==>
        r == Failure(TemplateMissing(id)) && file == old(file)
      ensures Deleted(old(Load()).signatureTemplates, "id", id).Some? ==>
        r == Success(writable)
        && Load() == (if writable then old(Load()).(signatureTemplates := Deleted(old(Load()).signatureTemplates, "id", id).value) else old(Load()))
      ensures r != Success(true) ==> file == old(file)
    {
      var s := Load();
      var templates := Deleted(s.signatureTemplates, "id", id);
      if templates.None? {
        return Failure(TemplateMissing(id));
      }
      var saved := Save(s.(signatureTemplates := templates.value));
      r := Success(saved);
    }
  }

  /*
   * The store as written: `loadSettings` hands out `DEFAULT_SETTINGS` itself
   * when there is no readable file, and the defaults' own shortcut map and
   * arrays for keys the file lacks. Every mutator changes the loaded object
   * in place (a key assignment, `push`, an index assignment or `splice`), so
   * the change lands in the defaults too, whether or not the save succeeds,
   * and `getShortcut` falls back to those changed defaults.
   */

  /** The process memory of the code as written: the file, whether a write
      succeeds, and the current contents of `DEFAULT_SETTINGS`. */
  datatype Memory = Memory(file: SettingsFile, writable: bool, defaults: Settings)

  function LoadAsWritten(m: Memory): (s: Settings)
    ensures !m.file.Present? ==> s == m.defaults
    ensures m.file.Present? ==> s == Merge(m.defaults, m.file.stored)
  {
    if m.file.Present? then Merge(m.defaults, m.file.stored) else m.defaults
  }

  /** The loaded shortcut map is the defaults' own. */
  predicate ShortcutsShared(m: Memory) {
    !m.file.Present? || m.file.stored.shortcuts.None?
  }

  /** The loaded pair list is the defaults' own array. */
  predicate PairsShared(m: Memory) {
    !m.file.Present? || m.file.stored.fileMovePairs.None?
  }

  /** The loaded template list is the defaults' own array. */
  predicate TemplatesShared(m: Memory) {
    !m.file.Present? || m.file.stored.signatureTemplates.None?
  }

  /** A mutator as written, after it changed the loaded object into `next`:
      every shared part of it is the defaults', and `saveSettings(next)`
      writes the file if it can. The next load sees a change to a part the
      file did not supply even when the save failed. */
  function CommitAsWritten(m: Memory, next: Settings): (r: (Memory, bool))
    ensures r.1 == m.writable && r.0.writable == m.writable
    ensures r.0.file == (if m.writable then Present(ToStored(next)) else m.file)
    ensures !m.file.Present? ==> r.0.defaults == next
    ensures LoadAsWritten(r.0).shortcuts
      == if m.writable || ShortcutsShared(m) then next.shortcuts else LoadAsWritten(m).shortcuts
    ensures LoadAsWritten(r.0).fileMovePairs
      == if m.writable || PairsShared(m) then next.fileMovePairs else LoadAsWritten(m).fileMovePairs
    ensures LoadAsWritten(r.0).signatureTemplates
      == if m.writable || TemplatesShared(m) then next.signatureTemplates else LoadAsWritten(m).signatureTemplates
  {
    var defaults := Settings(
      if ShortcutsShared(m) then next.shortcuts else m.defaults.shortcuts,
      if PairsShared(m) then next.fileMovePairs else m.defaults.fileMovePairs,
      if TemplatesShared(m) then next.signatureTemplates else m.defaults.signatureTemplates);
    (Memory(if m.writable then Present(ToStored(next)) else m.file, m.writable, defaults), m.writable)
  }

  /** With no settings file, the next load sees every change a mutator made, saved or not. */
  lemma NoFileChangesPersist(m: Memory, next: Settings)
    requires !m.file.Present?
    ensures LoadAsWritten(CommitAsWritten(m, next).0) == next
  {
  }

  /** `getShortcut(key)` as written: the fallback reads the current defaults. */
  function GetShortcutAsWritten(m: Memory, key: string): (r: Option<string>)
    ensures var loaded := LoadAsWritten(m).shortcuts;
      key in loaded && loaded[key] != "" ==> r == Some(loaded[key])
    ensures var loaded := LoadAsWritten(m).shortcuts;
      !(key in loaded && loaded[key] != "") ==> r == Lookup(m.defaults.shortcuts, key)
  {
    ShortcutOf(LoadAsWritten(m), key, m.defaults.shortcuts)
  }

  /** `updateShortcut(key, value)` as written. */
  function UpdateShortcutAsWritten(m: Memory, key: string, value: string): (r: (Memory, bool))
    ensures r.1 == m.writable && r.0.writable == m.writable
    ensures m.writable || ShortcutsShared(m) ==>
      var s := LoadAsWritten(m);
      LoadAsWritten(r.0) == s.(shortcuts := s.shortcuts[key := value])
    ensures !m.writable && !ShortcutsShared(m) ==> LoadAsWritten(r.0) == LoadAsWritten(m)
  {
    var s := LoadAsWritten(m);
    CommitAsWritten(m, s.(shortcuts := s.shortcuts[key := value]))
  }

  /** `addFileMovePair(pair)` as written: the new memory and what it returns. */
  function AddFileMovePairAsWritten(m: Memory, pair: Entry): (r: Result<(Memory, bool), string>)
    ensures r.Failure? <==> Added(LoadAsWritten(m).fileMovePairs, pair, "alias").None?
    ensures r.Failure? ==> r.error == PairExists(Lookup(pair, "alias"))
    ensures r.Success? ==> r.value.1 == m.writable && r.value.0.writable == m.writable
    ensures r.Success? ==>
      var s := LoadAsWritten(m);
      LoadAsWritten(r.value.0) == if m.writable || PairsShared(m) then s.(fileMovePairs := s.fileMovePairs + [pair]) else s
  {
    var s := LoadAsWritten(m);
    match Added(s.fileMovePairs, pair, "alias")
    case None => Failure(PairExists(Lookup(pair, "alias")))
    case Some(pairs) => Success(CommitAsWritten(m, s.(fileMovePairs := pairs)))
  }

  /** `updateFileMovePair(alias, pair)` as written. */
  function UpdateFileMovePairAsWritten(m: Memory, alias: string, pair: Entry): (r: Result<(Memory, bool), string>)
    ensures r.Failure? <==> Updated(LoadAsWritten(m).fileMovePairs, "alias", alias, pair).None?
    ensures r.Failure? ==> r.error == PairMissing(alias)
    ensures r.Success? ==> r.value.1 == m.writable && r.value.0.writable == m.writable
    ensures r.Success? ==>
      var s := LoadAsWritten(m);
      LoadAsWritten(r.value.0) == if m.writable || PairsShared(m) then s.(fileMovePairs := Updated(s.fileMovePairs, "alias", alias, pair).value) else s
  {
    var s := LoadAsWritten(m);
    match Updated(s.fileMovePairs, "alias", alias, pair)
    case None => Failure(PairMissing(alias))
    case Some(pairs) => Success(CommitAsWritten(m, s.(fileMovePairs := pairs)))
  }

  /** `deleteFileMovePair(alias)` as written. */
  function DeleteFileMovePairAsWritten(m: Memory, alias: string): (r: Result<(Memory, bool), string>)
    ensures r.Failure? <==> Deleted(LoadAsWritten(m).fileMovePairs, "alias", alias).None?
    ensures r.Failure? ==> r.error == PairMissing(alias)
    ensures r.Success? ==> r.value.1 == m.writable && r.value.0.writable == m.writable
    ensures r.Success? ==>
      var s := LoadAsWritten(m);
      LoadAsWritten(r.value.0) == if m.writable || PairsShared(m) then s.(fileMovePairs := Deleted(s.fileMovePairs, "alias", alias).value) else s
  {
    var s := LoadAsWritten(m);
    match Deleted(s.fileMovePairs, "alias", alias)
    case None => Failure(PairMissing(alias))
    case Some(pairs) => Success(CommitAsWritten(m, s.(fileMovePairs := pairs)))
  }

  /** `addSignatureTemplate(template)` as written. */
  function AddSignatureTemplateAsWritten(m: Memory, template: Entry): (r: Result<(Memory, bool), string>)
    ensures r.Failure? <==> Added(LoadAsWritten(m).signatureTemplates, template, "name").None?
    ensures r.Failure? ==> r.error == TemplateExists(Lookup(template, "name"))
    ensures r.Success? ==> r.value.1 == m.writable && r.value.0.writable == m.writable
    ensures r.Success? ==>
      var s := LoadAsWritten(m);
      LoadAsWritten(r.value.0) == if m.writable || TemplatesShared(m) then s.(signatureTemplates := s.signatureTemplates + [template]) else s
  {
    var s := LoadAsWritten(m);
    match Added(s.signatureTemplates, template, "name")
    case None => Failure(TemplateExists(Lookup(template, "name")))
    case Some(templates) => Success(CommitAsWritten(m, s.(signatureTemplates := templates)))
  }

  /** `updateSignatureTemplate(id, template)` as written. */
  function UpdateSignatureTemplateAsWritten(m: Memory, id: string, template: Entry): (r: Result<(Memory, bool), string>)
    ensures r.Failure? <==> Updated(LoadAsWritten(m).signatureTemplates, "id", id, template).None?
    ensures r.Failure? ==> r.error == TemplateMissing(id)
    ensures r.Success? ==> r.value.1 == m.writable && r.value.0.writable == m.writable
    ensures r.Success? ==>
      var s := LoadAsWritten(m);
      LoadAsWritten(r.value.0) == if m.writable || TemplatesShared(m) then s.(signatureTemplates := Updated(s.signatureTemplates, "id", id, template).value) else s
  {
    var s := LoadAsWritten(m);
    match Updated(s.signatureTemplates, "id", id, template)
    case None => Failure(TemplateMissing(id))
    case Some(templates) => Success(CommitAsWritten(m, s.(signatureTemplates := templates)))
  }

  /** `deleteSignatureTemplate(id)` as written. */
  function DeleteSignatureTemplateAsWritten(m: Memory, id: string): (r: Result<(Memory, bool), string>)
    ensures r.Failure? <==> Deleted(LoadAsWritten(m).signatureTemplates, "id", id).None?
    ensures r.Failure? ==> r.error == TemplateMissing(id)
    ensures r.Success? ==> r.value.1 == m.writable && r.value.0.writable == m.writable
    ensures r.Success? ==>
      var s := LoadAsWritten(m);
      LoadAsWritten(r.value.0) == if m.writable || TemplatesShared(m) then s.(signatureTemplates := Deleted(s.signatureTemplates, "id", id).value) else s
  {
    var s := LoadAsWritten(m);
    match Deleted(s.signatureTemplates, "id", id)
    case None => Failure(TemplateMissing(id))
    case Some(templates) => Success(CommitAsWritten(m, s.(signatureTemplates := templates)))
  }

  /** With no settings file and a failing write, an add reports that nothing was saved,
      yet the next load shows the pair and adding it again is refused. */
  lemma UnsavedPairPersists(pair: Entry, isMac: bool)
    ensures var m := Memory(Missing, false, DefaultSettings(isMac));
      var r := AddFileMovePairAsWritten(m, pair);
      r.Success? && !r.value.1
      && LoadAsWritten(r.value.0).fileMovePairs == [pair]
      && LoadAsWritten(m).fileMovePairs == []
      && AddFileMovePairAsWritten(r.value.0, pair).Failure?
  {
    var m := Memory(Missing, false, DefaultSettings(isMac));
    assert Added([], pair, "alias") == Some([pair]);
    var r := AddFileMovePairAsWritten(m, pair);
    assert LoadAsWritten(r.value.0).fileMovePairs == [pair];
    assert Matches([pair][0], "alias", Lookup(pair, "alias"));
  }

  /** The same for templates: an unsaved template shows up and blocks its name. */
  lemma UnsavedTemplatePersists(template: Entry, isMac: bool)
    ensures var m := Memory(Missing, false, DefaultSettings(isMac));
      var r := AddSignatureTemplateAsWritten(m, template);
      r.Success? && !r.value.1
      && LoadAsWritten(r.value.0).signatureTemplates == [template]
      && LoadAsWritten(m).signatureTemplates == []
      && AddSignatureTemplateAsWritten(r.value.0, template).Failure?
  {
    var m := Memory(Missing, false, DefaultSettings(isMac));
    assert Added([], template, "name") == Some([template]);
    var r := AddSignatureTemplateAsWritten(m, template);
    assert LoadAsWritten(r.value.0).signatureTemplates == [template];
    assert Matches([template][0], "name", Lookup(template, "name"));
  }

  /** With no settings file and a failing write, `updateShortcut` reports `false`,
      yet `getShortcut` then returns the new value. */
  lemma UnsavedShortcutPersists(isMac: bool)
    ensures var m := Memory(Missing, false, DefaultSettings(isMac));
      var r := UpdateShortcutAsWritten(m, "quickSearch", "X");
      !r.1 && GetShortcutAsWritten(r.0, "quickSearch") == Some("X")
      && GetShortcutAsWritten(m, "quickSearch") == Some(if isMac then "Command+K" else "Control+K")
  {
  }

  /** With no settings file, clearing a shortcut also clears its default, so
      `getShortcut` returns the empty string instead of the platform default. */
  lemma ClearedShortcutLosesDefault(isMac: bool)
    ensures var m := Memory(Missing, true, DefaultSettings(isMac));
      var r := UpdateShortcutAsWritten(m, "quickSearch", "");
      r.1 && GetShortcutAsWritten(r.0, "quickSearch") == Some("")
  {
  }
}
