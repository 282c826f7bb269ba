/** One folder of the disk. Every file operation is one step, and a crash can stop after any of them. */
module Directory {
  import opened Common

  class Directory<T> {
    var files: map<string, T>
    /** All states of the folder so far, the current one last. */
    ghost var states: seq<map<string, T>>

    ghost predicate Valid()
      reads this
    {
      states != [] && states[|states| - 1] == files
    }

    constructor (files: map<string, T>)
      ensures Valid() && this.files == files && states == [files]
    {
      this.files := files;
      states := [files];
    }

    method Remove(name: string)
      requires Valid()
      modifies this
      ensures Valid() && files == old(files) - {name}
      ensures states == old(states) + [files]
    {
      files := files - {name};
      states := states + [files];
    }

    /** A rename replaces its target in one step; it fails if the source is missing. */
    method Rename(source: string, target: string) returns (ok: bool)
      requires Valid()
      modifies this
      ensures Valid() && ok == (source in old(files))
      ensures files == if ok then Renamed(old(files), source, target) else old(files)
      ensures states == if ok then old(states) + [files] else old(states)
    {
      ok := source in files;
      if ok {
        files := Renamed(files, source, target);
        states := states + [files];
      }
    }

    /** Writing is not atomic: a crash can leave `torn` in the file. */
    method Write(name: string, torn: T, content: T)
      requires Valid()
      modifies this
      ensures Valid() && files == old(files)[name := content]
      ensures states == old(states) + [old(files)[name := torn], files]
    {
      files := files[name := torn];
      states := states + [files];
      files := files[name := content];
      states := states + [files];
    }
  }

  function Renamed<T>(d: map<string, T>, source: string, target: string): map<string, T>
    requires source in d
  {
    (d - {source})[target := d[source]]
  }
}
