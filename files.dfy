/** The file system the runner reads and writes: a map from path to file
    contents. A path that is not in the map is a file that does not exist
    or cannot be opened for reading. */
module Files {
  import opened Optional

  /** The contents at `path`, or None when opening it for reading fails
      (the ifstream is not open, `good()` is false, readFile throws). */
  function Lookup(files: map<string, string>, path: string): (r: Option<string>)
    ensures r.Some? <==> path in files
    ensures r.Some? ==> r.value == files[path]
  {
    if path in files then Some(files[path]) else None
  }

  class FileSystem {
    var files: map<string, string>

    constructor (initial: map<string, string>)
      ensures files == initial
    {
      files := initial;
    }

    /** utils::readFile: the whole contents of `path`, or None. */
    function Read(path: string): (r: Option<string>)
      reads this
      ensures r == Lookup(files, path)
    {
      Lookup(files, path)
    }

    /** An std::ofstream on `path` followed by `<< contents`: when the
        stream opens (`canOpen`), the file is created or truncated and
        then holds exactly `contents`; otherwise nothing changes. */
    method Write(path: string, contents: string, canOpen: bool) returns (isOpen: bool)
      modifies this
      ensures isOpen == canOpen
      ensures files == if canOpen then old(files)[path := contents] else old(files)
    {
      isOpen := canOpen;
      if canOpen {
        files := files[path := contents];
      }
    }
  }
}
