/** The settings page (src/pages/Profile.tsx): one free-text "resume context",
    loaded from the browser's local storage on mount and written back on Save. */
module ProfilePage {
  import opened Wrappers
  import opened Toasts

  const ResumeKey := "resumeContext"
  const SavedNotice := Notice("Saved!", "Your resume context has been saved")

  /** `getItem`: the value stored under `key`, or null. */
  function Get(entries: map<string, string>, key: string): (v: Option<string>)
    ensures v.Some? <==> key in entries
    ensures v.Some? ==> v.value == entries[key]
  {
    if key in entries then Some(entries[key]) else None
  }

  /** The text the page shows after mounting: it starts as "" and takes the saved
      value when that is truthy. Because the fallback is "" too, the page shows
      whatever was saved, "" included. */
  function MountedText(saved: Option<string>): (t: string)
    ensures saved.None? ==> t == ""
    ensures saved.Some? ==> t == saved.value
  {
    if Truthy(saved) then saved.value else ""
  }

  /** `localStorage`: a key to string map. */
  class LocalStorage {
    var entries: map<string, string>

    constructor (entries: map<string, string>)
      ensures this.entries == entries
    {
      this.entries := entries;
    }

    method GetItem(key: string) returns (v: Option<string>)
      ensures v == Get(entries, key)
      ensures v.Some? <==> key in entries
    {
      v := Get(entries, key);
    }

    /** `setItem`; it throws, writing nothing, when the browser refuses the write
        (for one, a value over the storage quota). `fails` stands for that outcome. */
    method SetItem(key: string, value: string, fails: bool) returns (ok: bool)
      modifies this
      ensures ok == !fails
      ensures entries == if ok then old(entries)[key := value] else old(entries)
    {
      ok := !fails;
      if ok {
        entries := entries[key := value];
      }
    }
  }

  class Profile {
    const storage: LocalStorage
    var resumeContext: string

    /** Mounting the page: `useState("")`, then the load effect. */
    constructor (storage: LocalStorage)
      ensures this.storage == storage
      ensures resumeContext == MountedText(Get(storage.entries, ResumeKey))
    {
      this.storage := storage;
      resumeContext := "";
      new;
      var saved := storage.GetItem(ResumeKey);
      if Truthy(saved) {
        resumeContext := saved.value;
      }
    }

    /** Typing in the text area changes the in-memory text only. */
    method Edit(text: string)
      modifies this`resumeContext
      ensures resumeContext == text
    {
      resumeContext := text;
    }

    /** `handleSave`: writes the text verbatim under the one key and raises a notice;
        no other key changes. When the write throws, nothing is stored and the
        notice is never reached. */
    method Save(writeFails: bool) returns (notice: Option<Notice>)
      modifies storage
      ensures storage.entries ==
        if writeFails then old(storage.entries) else old(storage.entries)[ResumeKey := resumeContext]
      ensures notice == if writeFails then None else Some(SavedNotice)
    {
      var ok := storage.SetItem(ResumeKey, resumeContext, writeFails);
      notice := if ok then Some(SavedNotice) else None;
    }
  }

  /** Save then remount: after a successful write the fresh page shows exactly
      what was saved, "" included, and every other stored key is left as it was;
      after a failed write it shows what was stored before. */
  method SaveThenRemount(storage: LocalStorage, text: string, writeFails: bool) returns (reloaded: string)
    modifies storage
    ensures !writeFails ==> reloaded == text
    ensures !writeFails ==> storage.entries == old(storage.entries)[ResumeKey := text]
    ensures writeFails ==> reloaded == MountedText(Get(old(storage.entries), ResumeKey))
    ensures writeFails ==> storage.entries == old(storage.entries)
  {
    var page := new Profile(storage);
    page.Edit(text);
    assert storage.entries == old(storage.entries);
    var _ := page.Save(writeFails);
    var remounted := new Profile(storage);
    reloaded := remounted.resumeContext;
  }

  /** The same round trip on the stored map alone. */
  lemma SaveRoundTrip(entries: map<string, string>, text: string)
    ensures MountedText(Get(entries[ResumeKey := text], ResumeKey)) == text
    ensures forall k :: k != ResumeKey ==> Get(entries[ResumeKey := text], k) == Get(entries, k)
  {
  }
}
