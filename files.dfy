/**
 * The part of Node's synchronous `fs` API that certificate handling uses: `existsSync`,
 * `readFileSync` and `writeFileSync`, over an abstract map from paths to file contents.
 */
module Files {
  import opened Wrappers

  /**
   * A directory entry: its bytes, and whether this process may read it. An entry that is not
   * readable stands for a read that throws: a file without read permission for the server's
   * user, or an I/O error. (A directory at the path is also unreadable, and belongs in
   * `readOnly` as well, since writing to it throws too.)
   */
  datatype Entry = Entry(data: Bytes, readable: bool)

  /** A snapshot of the file system: its entries, and the paths a write to which throws. */
  datatype Disk = Disk(files: map<string, Entry>, readOnly: set<string>)

  /** `readFileSync(path)`: the bytes, or the error it throws for a missing or unreadable file. */
  function Read(d: Disk, path: string): (r: Result<Bytes, string>)
    ensures r.Success? <==> path in d.files && d.files[path].readable
    ensures r.Success? ==> r.value == d.files[path].data
  {
    if path in d.files && d.files[path].readable then Success(d.files[path].data)
    else if path in d.files then Failure("EACCES")
    else Failure("ENOENT")
  }

  /**
   * Whether a file written at `path` can be read back: a new file is created readable, and an
   * existing file keeps its mode, so it stays unreadable when it was.
   */
  predicate ReadableOnceWritten(d: Disk, path: string) {
    path !in d.files || d.files[path].readable
  }

  /** `writeFileSync(path, data)`: throws on a read-only path, otherwise creates or replaces the file's bytes. */
  function Write(d: Disk, path: string, data: Bytes): (r: (bool, Disk))
    ensures r.0 <==> path !in d.readOnly
    ensures r.1.readOnly == d.readOnly
    ensures r.0 ==> r.1.files == d.files[path := Entry(data, ReadableOnceWritten(d, path))]
    ensures !r.0 ==> r.1 == d
  {
    if path in d.readOnly then (false, d)
    else (true, d.(files := d.files[path := Entry(data, ReadableOnceWritten(d, path))]))
  }

  /**
   * After a successful write, reading that path gives the bytes written exactly when the file
   * was new or readable before; reading any other path gives what it gave before.
   */
  lemma ReadAfterWrite(d: Disk, path: string, data: Bytes, other: string)
    requires Write(d, path, data).0
    ensures Read(Write(d, path, data).1, path).Success? <==> ReadableOnceWritten(d, path)
    ensures ReadableOnceWritten(d, path) ==> Read(Write(d, path, data).1, path) == Success(data)
    ensures other != path ==> Read(Write(d, path, data).1, other) == Read(d, other)
  {
  }

  /** The file system of the host the server runs on. */
  class FileSystem {
    var files: map<string, Entry>
    const readOnly: set<string>

    function State(): Disk
      reads this
    {
      Disk(files, readOnly)
    }

    constructor (files: map<string, Entry>, readOnly: set<string>)
      ensures State() == Disk(files, readOnly)
    {
      this.files := files;
      this.readOnly := readOnly;
    }

    /** `fs.existsSync(path)`: never throws. */
    method ExistsSync(path: string) returns (b: bool)
      ensures b <==> path in files
    {
      b := path in files;
    }

    method ReadFileSync(path: string) returns (r: Result<Bytes, string>)
      ensures r == Read(State(), path)
    {
      r := Read(State(), path);
    }

    method WriteFileSync(path: string, data: Bytes) returns (ok: bool)
      modifies this
      ensures (ok, State()) == Write(old(State()), path, data)
    {
      ok := path !in readOnly;
      if ok {
        var readable := path !in files || files[path].readable;
        files := files[path := Entry(data, readable)];
      }
    }
  }
}
