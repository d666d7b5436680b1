/** The two filesystem calls the service makes, `os.Mkdir` and
    `ioutil.WriteFile`, over a filesystem of directories and files named by
    their full slash-separated paths. */
module Storage {
  import opened Browser

  class FileSystem {
    var dirs: set<string>
    var files: map<string, Bytes>

    constructor (dirs: set<string>, files: map<string, Bytes>)
      ensures this.dirs == dirs && this.files == files
    {
      this.dirs := dirs;
      this.files := files;
    }

    /** `os.Mkdir(parent + "/" + name)`: fails when the parent is missing or
        the path is already taken. */
    method Mkdir(parent: string, name: string) returns (ok: bool)
      modifies this
      ensures ok <==> parent in old(dirs) && parent + "/" + name !in old(dirs) && parent + "/" + name !in old(files)
      ensures dirs == if ok then old(dirs) + {parent + "/" + name} else old(dirs)
      ensures files == old(files)
    {
      var path := parent + "/" + name;
      ok := parent in dirs && path !in dirs && path !in files;
      if ok {
        dirs := dirs + {path};
      }
    }

    /** `ioutil.WriteFile(dir + "/" + name, data, 0644)`: creates or
        truncates the file; fails when the directory does not exist. */
    method WriteFile(dir: string, name: string, data: Bytes) returns (ok: bool)
      modifies this
      ensures ok <==> dir in old(dirs)
      ensures files == if ok then old(files)[dir + "/" + name := data] else old(files)
      ensures dirs == old(dirs)
    {
      ok := dir in dirs;
      if ok {
        files := files[dir + "/" + name := data];
      }
    }
  }
}
