/**
 * The file system as the cache sees it: a set of existing directories and a map from file
 * (directory and name) to contents. `File` plays the part of `java.io.File`.
 */
module FileSystem {
  import opened Wrappers

  type Bytes = seq<bv8>

  /** `new File(dir, name)`. */
  datatype File = File(dir: string, name: string)

  datatype DiskState = DiskState(dirs: set<string>, files: map<File, Bytes>)

  /**
   * `dir.listFiles()`, reduced to the entries' names: null (`None`) when `dir` is not a
   * directory, otherwise the names of exactly the files directly inside it.
   */
  function Listing(d: DiskState, dir: string): (r: Option<set<string>>)
    ensures r.Some? <==> dir in d.dirs
    ensures r.Some? ==> forall n :: n in r.value <==> File(dir, n) in d.files
  {
    if dir in d.dirs then Some(set f | f in d.files && f.dir == dir :: f.name) else None
  }

  class Disk {
    var dirs: set<string>
    var files: map<File, Bytes>

    constructor (dirs: set<string>, files: map<File, Bytes>)
      ensures this.dirs == dirs && this.files == files
    {
      this.dirs, this.files := dirs, files;
    }

    function State(): DiskState
      reads this
    {
      DiskState(dirs, files)
    }

    /** `dir.mkdirs()`; whether it succeeds is decided by the environment. */
    method Mkdirs(dir: string, succeeds: bool) returns (ok: bool)
      modifies this`dirs
      ensures ok == succeeds
      ensures dirs == if succeeds then old(dirs) + {dir} else old(dirs)
    {
      ok := succeeds;
      if succeeds {
        dirs := dirs + {dir};
      }
    }

    /** `Files.copy(stream, f, REPLACE_EXISTING)` run to completion. */
    method Write(f: File, data: Bytes)
      modifies this`files
      ensures files == old(files)[f := data]
    {
      files := files[f := data];
    }

    /** `Files.deleteIfExists(f)` run to completion: a file that is not there is no error. */
    method DeleteIfExists(f: File)
      modifies this`files
      ensures files == old(files) - {f}
      ensures f !in old(files) ==> files == old(files)
    {
      files := files - {f};
    }
  }
}
