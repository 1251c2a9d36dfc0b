/** The files the market-data operations write and read, each held as the rows it contains. */
module Storage {
  import opened Candles

  type Files = map<string, seq<Row>>

  class FileStore {
    var files: Files

    constructor (files: Files)
      ensures this.files == files
    {
      this.files := files;
    }

    /** Opening a path for writing creates it, or truncates it to no rows. */
    method OpenForWriting(path: string)
      modifies this
      ensures files == old(files)[path := []]
    {
      files := files[path := []];
    }

    /** Appends one row to a file that is open. */
    method WriteRow(path: string, row: Row)
      requires path in files
      modifies this
      ensures files == old(files)[path := old(files)[path] + [row]]
    {
      files := files[path := files[path] + [row]];
    }
  }
}
