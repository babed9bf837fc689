/** The file-backed list of fines already announced (data.json). */
module Store {
  import opened Fines

  /** The contents of the store file as `loadSavedFines` finds it: a JSON
      array of fines, or something it cannot read or parse. */
  datatype StoreFile = Unreadable | Stored(fines: seq<Fine>)

  /** `loadSavedFines`: a missing or unparsable file reads as no fines. */
  function Load(file: StoreFile): seq<Fine> {
    match file
    case Unreadable => []
    case Stored(fines) => fines
  }

  /** `saveFines`: the file is overwritten with the whole list. */
  function Save(fines: seq<Fine>): StoreFile {
    Stored(fines)
  }

  /** What is saved is what the next load reads back. */
  lemma LoadAfterSave(fines: seq<Fine>)
    ensures Load(Save(fines)) == fines
  {
  }
}
