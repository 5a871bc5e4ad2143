/** One database session per request: writes are flushed to the session, and only a commit shows them to
    other requests. A session that is closed without a commit leaves the committed tables as they were. */
module Sessions {
  class Session<T> {
    var committed: T
    var working: T

    constructor (tables: T)
      ensures committed == tables && working == tables
    {
      committed, working := tables, tables;
    }

    method Begin()
      modifies this`working
      ensures working == committed
    {
      working := committed;
    }

    method Commit()
      modifies this`committed
      ensures committed == working
    {
      committed := working;
    }
  }
}
