/**
 * The legacy browser store (src/utils/storage.ts): two localStorage keys,
 * one holding the JSON list of sessions and one the JSON settings record.
 *
 * A key is absent (None) or holds text. JSON.stringify / JSON.parse are
 * taken as a faithful encoding, so stored text is either the encoding of a
 * value (Json) or text that does not decode to one (Malformed: the empty
 * string, broken JSON, JSON that is not an array, or an array holding null;
 * arrays of other values that are not sessions are not represented).
 */
module Storage {
  import opened Wrappers
  import opened Types
  import Seqs

  datatype Item<T> = Json(value: T) | Malformed

  /** What JSON.parse makes of the text given to importFromJSON: a parse
      error, the JSON value null (reading a field of it throws), or any other
      JSON value. For that last case only two fields matter: `sessions`,
      which is Some when it is an array, and `settings`, which is Some when it
      is truthy. A number, a string, an array, or an object without those
      fields is Document(None, None). A falsy `settings` (missing, null, 0,
      false or "") is None too. */
  datatype ImportText =
    | Unparseable
    | JsonNull
    | Document(sessions: Option<seq<Session>>, settings: Option<Settings>)

  /** The object exportToJSON serialises (its exportDate stamp is left out). */
  datatype Backup = Backup(sessions: seq<Session>, settings: Settings)

  /** Writing a backup and parsing the text back. */
  function Encode(b: Backup): ImportText {
    Document(Some(b.sessions), Some(b.settings))
  }

  /** getSessions(): the stored list, or [] when the key is absent or its
      text does not decode. */
  function SessionsOf(item: Option<Item<seq<Session>>>): (r: seq<Session>)
    ensures item == None || item == Some(Malformed) ==> r == []
    ensures item.Some? && item.value.Json? ==> r == item.value.value
  {
    match item
    case Some(Json(v)) => v
    case _ => []
  }

  /** What getSettings() returns: the stored record, or the defaults. */
  function SettingsOf(item: Option<Item<Settings>>): (r: Settings)
    ensures item == None || item == Some(Malformed) ==> r == DefaultSettings
    ensures item.Some? && item.value.Json? ==> r == item.value.value
  {
    match item
    case Some(Json(v)) => v
    case _ => DefaultSettings
  }

  /** The filter callback s => s.id !== id */
  function KeepOther(id: string): Session -> bool {
    (s: Session) => s.id != id
  }

  /** sessions.filter(s => s.id !== id) */
  function WithoutId(sessions: seq<Session>, id: string): (r: seq<Session>)
    ensures forall s :: s in r <==> s in sessions && s.id != id
    ensures |r| <= |sessions|
  {
    Seqs.Filter(sessions, KeepOther(id))
  }

  /** Deleting keeps the survivors in their original order. */
  lemma WithoutIdKeepsOrder(a: seq<Session>, b: seq<Session>, id: string)
    ensures WithoutId(a + b, id) == WithoutId(a, id) + WithoutId(b, id)
  {
    Seqs.FilterAppend(a, b, KeepOther(id));
  }

  /** Deleting an id nobody has changes nothing. */
  lemma WithoutAbsentId(sessions: seq<Session>, id: string)
    requires forall i :: 0 <= i < |sessions| ==> sessions[i].id != id
    ensures WithoutId(sessions, id) == sessions
  {
    Seqs.FilterKeepsAll(sessions, KeepOther(id));
  }

  class LocalStore {
    /** localStorage 'focustimer_sessions' */
    var sessionsItem: Option<Item<seq<Session>>>
    /** localStorage 'focustimer_settings' */
    var settingsItem: Option<Item<Settings>>

    /** A browser profile where the application has never written anything. */
    constructor ()
      ensures sessionsItem == None && settingsItem == None
    {
      sessionsItem := None;
      settingsItem := None;
    }

    function Sessions(): seq<Session>
      reads this
    {
      SessionsOf(sessionsItem)
    }

    function CurrentSettings(): Settings
      reads this
    {
      SettingsOf(settingsItem)
    }

    method GetSessions() returns (r: seq<Session>)
      ensures sessionsItem == None || sessionsItem == Some(Malformed) ==> r == []
      ensures sessionsItem.Some? && sessionsItem.value.Json? ==> r == sessionsItem.value.value
    {
      r := SessionsOf(sessionsItem);
    }

    method SaveSessions(sessions: seq<Session>)
      modifies this
      ensures sessionsItem == Some(Json(sessions)) && settingsItem == old(settingsItem)
    {
      sessionsItem := Some(Json(sessions));
    }

    /** Appends at the end; undecodable stored text is replaced by [session]. */
    method AddSession(session: Session)
      modifies this
      ensures sessionsItem == Some(Json(old(Sessions()) + [session]))
      ensures settingsItem == old(settingsItem)
    {
      var sessions := GetSessions();
      sessions := sessions + [session];
      SaveSessions(sessions);
    }

    method DeleteSession(sessionId: string)
      modifies this
      ensures sessionsItem == Some(Json(WithoutId(old(Sessions()), sessionId)))
      ensures settingsItem == old(settingsItem)
    {
      var sessions := GetSessions();
      SaveSessions(WithoutId(sessions, sessionId));
    }

    /** Returns the stored record; with none (or undecodable text) writes the
        defaults first and returns them. */
    method GetSettings() returns (r: Settings)
      modifies this
      ensures r == old(CurrentSettings())
      ensures old(settingsItem).Some? && old(settingsItem).value.Json? ==> settingsItem == old(settingsItem)
      ensures old(settingsItem) == None || old(settingsItem) == Some(Malformed) ==>
        settingsItem == Some(Json(DefaultSettings))
      ensures sessionsItem == old(sessionsItem)
    {
      match settingsItem
      case Some(Json(v)) =>
        r := v;
      case _ =>
        r := DefaultSettings;
        SaveSettings(r);
    }

    method SaveSettings(settings: Settings)
      modifies this
      ensures settingsItem == Some(Json(settings)) && sessionsItem == old(sessionsItem)
    {
      settingsItem := Some(Json(settings));
    }

    method ClearAllData()
      modifies this
      ensures sessionsItem == None && settingsItem == None
      ensures Sessions() == [] && CurrentSettings() == DefaultSettings
    {
      sessionsItem := None;
      settingsItem := None;
    }

    /** The backup object; reading the settings may write the defaults. */
    method ExportToJSON() returns (b: Backup)
      modifies this
      ensures b == Backup(old(Sessions()), old(CurrentSettings()))
      ensures sessionsItem == old(sessionsItem) && CurrentSettings() == old(CurrentSettings())
      ensures settingsItem ==
        if old(settingsItem).Some? && old(settingsItem).value.Json? then old(settingsItem)
        else Some(Json(DefaultSettings))
    {
      var sessions := GetSessions();
      var settings := GetSettings();
      b := Backup(sessions, settings);
    }

    /** Replaces the session list when the document has one and the settings
        when it has them; parsing comes first, so a failure writes nothing. */
    method ImportFromJSON(text: ImportText) returns (ok: bool)
      modifies this
      ensures ok <==> text.Document?
      ensures sessionsItem ==
        if text.Document? && text.sessions.Some? then Some(Json(text.sessions.value)) else old(sessionsItem)
      ensures settingsItem ==
        if text.Document? && text.settings.Some? then Some(Json(text.settings.value)) else old(settingsItem)
    {
      match text
      case Unparseable =>
        ok := false;
      case JsonNull =>
        ok := false;
      case Document(sessions, settings) =>
        if sessions.Some? {
          SaveSessions(sessions.value);
        }
        if settings.Some? {
          SaveSettings(settings.value);
        }
        ok := true;
    }
  }

  /** On a fresh key the first read writes the defaults and a second read
      returns the same record. */
  method SettingsDefaultsPersist(store: LocalStore) returns (first: Settings, second: Settings)
    requires store.settingsItem == None
    modifies store
    ensures first == DefaultSettings && second == first
    ensures store.settingsItem == Some(Json(DefaultSettings))
  {
    first := store.GetSettings();
    second := store.GetSettings();
  }

  /** After saveSettings(x), getSettings() returns x. */
  method SaveThenGetSettings(store: LocalStore, x: Settings) returns (r: Settings)
    modifies store
    ensures r == x
  {
    store.SaveSettings(x);
    r := store.GetSettings();
  }

  /** After clearAllData(), the list is empty and the settings are the defaults. */
  method ClearThenRead(store: LocalStore) returns (sessions: seq<Session>, settings: Settings)
    modifies store
    ensures sessions == [] && settings == DefaultSettings
  {
    store.ClearAllData();
    sessions := store.GetSessions();
    settings := store.GetSettings();
  }

  /** Importing an exported backup reproduces the sessions and the
      settings, into the same store (the app has one) or into another. */
  method ExportImportRoundTrip(source: LocalStore, target: LocalStore) returns (ok: bool)
    modifies source, target
    ensures ok
    ensures target.Sessions() == old(source.Sessions())
    ensures target.CurrentSettings() == old(source.CurrentSettings())
  {
    var backup := source.ExportToJSON();
    ok := target.ImportFromJSON(Encode(backup));
  }

  /** importFromJSON(exportToJSON()) on the app's one store succeeds and
      leaves what it reads as it was. */
  method SameStoreRoundTrip(store: LocalStore) returns (ok: bool)
    modifies store
    ensures ok
    ensures store.Sessions() == old(store.Sessions())
    ensures store.CurrentSettings() == old(store.CurrentSettings())
  {
    ok := ExportImportRoundTrip(store, store);
  }
}
