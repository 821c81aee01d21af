/**
 * The settings handlers of the main process (main.js:74-87) over the
 * persistent key-value store. The store's file and its JSON encoding are not
 * modelled: the store is a map from key to value.
 */
module Settings {
  import opened NodePath

  /** What get-settings returns and save-settings receives. */
  datatype AppSettings = AppSettings(rootFolder: string, useOpenAI: bool, openAIKey: string)

  /** A stored value: the three settings are two strings and a flag. */
  datatype StoreValue = Text(text: string) | Flag(flag: bool)

  const RootFolderKey: string := "rootFolder"
  const UseOpenAIKey: string := "useOpenAI"
  const OpenAIKeyKey: string := "openAIKey"

  /** Each settings key, when present, holds a value of its setting's type. */
  predicate WellTyped(entries: map<string, StoreValue>)
  {
    && (RootFolderKey in entries ==> entries[RootFolderKey].Text?)
    && (UseOpenAIKey in entries ==> entries[UseOpenAIKey].Flag?)
    && (OpenAIKeyKey in entries ==> entries[OpenAIKeyKey].Text?)
  }

  /** `path.join(app.getPath('documents'), 'ImageDrop')`. */
  function DefaultRootFolder(documents: string): string
  {
    JoinPath(documents, "ImageDrop")
  }

  /** get-settings (main.js:74-80): each key's stored value, or its default. */
  function ReadSettings(entries: map<string, StoreValue>, documents: string): (s: AppSettings)
    requires WellTyped(entries)
    ensures RootFolderKey !in entries ==> s.rootFolder == DefaultRootFolder(documents)
    ensures UseOpenAIKey !in entries ==> !s.useOpenAI
    ensures OpenAIKeyKey !in entries ==> s.openAIKey == ""
    ensures RootFolderKey in entries ==> Text(s.rootFolder) == entries[RootFolderKey]
    ensures UseOpenAIKey in entries ==> Flag(s.useOpenAI) == entries[UseOpenAIKey]
    ensures OpenAIKeyKey in entries ==> Text(s.openAIKey) == entries[OpenAIKeyKey]
  {
    AppSettings(
      if RootFolderKey in entries then entries[RootFolderKey].text else DefaultRootFolder(documents),
      if UseOpenAIKey in entries then entries[UseOpenAIKey].flag else false,
      if OpenAIKeyKey in entries then entries[OpenAIKeyKey].text else "")
  }

  /** save-settings (main.js:82-86): the three keys are set, nothing else changes. */
  function WriteSettings(entries: map<string, StoreValue>, s: AppSettings): (updated: map<string, StoreValue>)
    ensures WellTyped(updated)
    ensures updated.Keys == entries.Keys + {RootFolderKey, UseOpenAIKey, OpenAIKeyKey}
    ensures forall k :: (k in entries && k != RootFolderKey && k != UseOpenAIKey && k != OpenAIKeyKey)
                          ==> updated[k] == entries[k]
  {
    entries[RootFolderKey := Text(s.rootFolder)][UseOpenAIKey := Flag(s.useOpenAI)][OpenAIKeyKey := Text(s.openAIKey)]
  }

  /** A store with no settings yields the defaults: Documents/ImageDrop, AI off, no key. */
  lemma DefaultSettings(documents: string)
    ensures ReadSettings(map[], documents) == AppSettings(DefaultRootFolder(documents), false, "")
  {
  }

  /** What save-settings stores, get-settings returns unchanged, whatever was stored before. */
  lemma SettingsRoundTrip(entries: map<string, StoreValue>, s: AppSettings, documents: string)
    requires WellTyped(entries)
    ensures ReadSettings(WriteSettings(entries, s), documents) == s
  {
  }

  /** Saving twice is saving once: the later call wins and the earlier leaves no trace. */
  lemma SaveSettingsOverwrites(entries: map<string, StoreValue>, s: AppSettings, t: AppSettings)
    ensures WriteSettings(WriteSettings(entries, s), t) == WriteSettings(entries, t)
  {
  }

  /** The application's settings store. */
  class SettingsStore {
    var entries: map<string, StoreValue>

    ghost predicate Valid()
      reads this
    {
      WellTyped(entries)
    }

    /** Opens the store with what an earlier run persisted. */
    constructor (persisted: map<string, StoreValue>)
      requires WellTyped(persisted)
      ensures Valid() && entries == persisted
    {
      entries := persisted;
    }

    /** The get-settings handler. */
    function GetSettings(documents: string): (s: AppSettings)
      reads this
      requires Valid()
    {
      ReadSettings(entries, documents)
    }

    /** The save-settings handler; it always reports success. */
    method SaveSettings(s: AppSettings) returns (success: bool)
      requires Valid()
      modifies this
      ensures Valid()
      ensures entries == WriteSettings(old(entries), s)
      ensures forall documents :: GetSettings(documents) == s
      ensures success
    {
      entries := WriteSettings(entries, s);
      success := true;
      forall documents: string ensures GetSettings(documents) == s {
        SettingsRoundTrip(old(entries), s, documents);
      }
    }
  }
}
