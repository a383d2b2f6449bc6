/** The cover-image store (app/composables/useIndexedDB.ts) as a map from task id
    to the stored data URL. Opening the database, reading the file and the
    transactions themselves are not modelled. */
module CoverStore {
  import opened TaskTypes

  type Store = map<string, string>

  /** `saveCoverImage(taskId, file)`: a file's data URL overwrites the entry for
      `taskId`; `null` deletes it. */
  function Write(store: Store, taskId: string, data: Option<string>): (r: Store)
    ensures r.Keys == if data.Some? then store.Keys + {taskId} else store.Keys - {taskId}
    ensures data.Some? ==> taskId in r && r[taskId] == data.value
    ensures forall k :: k in r && k != taskId ==> r[k] == store[k]
  {
    if data.Some? then store[taskId := data.value] else store - {taskId}
  }

  /** `getCoverImage(taskId)`: the stored data URL, or `null` for a missing key. */
  function Read(store: Store, taskId: string): (r: Option<string>)
    ensures r.Some? <==> taskId in store
    ensures r.Some? ==> r.value == store[taskId]
  {
    if taskId in store then Some(store[taskId]) else None
  }

  /** The argument `saveCoverImage` receives for a cover file that was given. */
  function Payload(f: CoverFile): Option<string> {
    if f.File? then Some(f.dataUrl) else None
  }

  /** Reading a key back after writing it yields what was written: the data URL
      after a put, `null` after a delete. */
  lemma ReadAfterWrite(store: Store, taskId: string, data: Option<string>)
    ensures Read(Write(store, taskId, data), taskId) == data
  {
  }

  /** A write leaves every other task's cover as it was. */
  lemma WriteOther(store: Store, taskId: string, data: Option<string>, other: string)
    requires other != taskId
    ensures Read(Write(store, taskId, data), other) == Read(store, other)
  {
  }

  /** Deleting a cover that is not there leaves the store as it is. */
  lemma DeleteAbsent(store: Store, taskId: string)
    requires taskId !in store
    ensures Write(store, taskId, None) == store
  {
  }

  /** A second identical write changes nothing. */
  lemma WriteIdempotent(store: Store, taskId: string, data: Option<string>)
    ensures Write(Write(store, taskId, data), taskId, data) == Write(store, taskId, data)
  {
  }
}
