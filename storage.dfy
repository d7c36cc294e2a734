/**
  The write-through file cache of storage.go: a `Storage` remembers one
  file's contents once it has written them, and skips a write of the value
  it already holds. Its `get` has a value receiver, so the cache it fills
  belongs to a copy and is lost on return: only `set` changes a `Storage`.

  The file system is a class holding the files' contents, with the paths
  whose read and whose write fail (and the error each reports) fixed.
 */
module FileCache {
  import opened Wrappers

  /** What the file system holds and which paths fail. */
  datatype Disk = Disk(files: map<string, string>, unreadable: map<string, string>, unwritable: map<string, string>)

  /** `os.Stat` finds something at the path (a file, or something that cannot be read as one). */
  predicate Exists(d: Disk, path: string) {
    path in d.files || path in d.unreadable
  }

  class FileSystem {
    var files: map<string, string>
    const unreadable: map<string, string>   // path -> the error `os.ReadFile` reports
    const unwritable: map<string, string>   // path -> the error `os.WriteFile` reports

    constructor (files: map<string, string>, unreadable: map<string, string>, unwritable: map<string, string>)
      ensures View() == Disk(files, unreadable, unwritable)
    {
      this.files := files;
      this.unreadable := unreadable;
      this.unwritable := unwritable;
    }

    function View(): Disk
      reads this
    {
      Disk(files, unreadable, unwritable)
    }
  }

  /** The fields of a `Storage`. */
  datatype Cache = Cache(file: string, value: string, loaded: bool)

  /** `Storage{File: file}`. */
  function Fresh(file: string): Cache {
    Cache(file, "", false)
  }

  /**
    What `get` returns: the cached value once loaded; otherwise "" for a
    missing file, "" and the error for an unreadable one, or the contents.
   */
  function Read(c: Cache, d: Disk): (r: (string, Option<string>))
    ensures c.loaded ==> r == (c.value, None)
    ensures !c.loaded && !Exists(d, c.file) ==> r == ("", None)
    ensures !c.loaded && c.file in d.unreadable ==> r == ("", Some(d.unreadable[c.file]))
    ensures !c.loaded && c.file in d.files && c.file !in d.unreadable ==> r == (d.files[c.file], None)
    ensures r.1.Some? ==> r.0 == ""
  {
    if c.loaded then (c.value, None)
    else if !Exists(d, c.file) then ("", None)
    else if c.file in d.unreadable then ("", Some(d.unreadable[c.file]))
    else (d.files[c.file], None)
  }

  /** What `set(v)` does: the new fields, the new disk, and the error. */
  function Write(c: Cache, d: Disk, v: string): (r: (Cache, Disk, Option<string>))
    ensures c.loaded && c.value == v ==> r == (c, d, None)
    ensures !(c.loaded && c.value == v) && c.file in d.unwritable ==> r == (c, d, Some(d.unwritable[c.file]))
    ensures !(c.loaded && c.value == v) && c.file !in d.unwritable ==>
      r == (Cache(c.file, v, true), d.(files := d.files[c.file := v]), None)
    ensures r.0.file == c.file && r.1.unreadable == d.unreadable && r.1.unwritable == d.unwritable
  {
    if c.loaded && c.value == v then (c, d, None)
    else if c.file in d.unwritable then (c, d, Some(d.unwritable[c.file]))
    else (Cache(c.file, v, true), d.(files := d.files[c.file := v]), None)
  }

  class Storage {
    var file: string
    var value: string
    var loaded: bool

    constructor (file: string)
      ensures Fields() == Fresh(file)
    {
      this.file := file;
      this.value := "";
      this.loaded := false;
    }

    function Fields(): Cache
      reads this
    {
      Cache(file, value, loaded)
    }

    /** `get`: works on a copy of the fields, so it changes nothing. */
    method Get(fs: FileSystem) returns (result: string, err: Option<string>)
      ensures (result, err) == Read(Fields(), fs.View())
    {
      var copy := Fields();
      if !copy.loaded {
        copy := copy.(loaded := true);
        if copy.file !in fs.files && copy.file !in fs.unreadable {
          return "", None;
        }
        if copy.file in fs.unreadable {
          return "", Some(fs.unreadable[copy.file]);
        }
        copy := copy.(value := fs.files[copy.file]);
      }
      return copy.value, None;
    }

    /** `set`: skip a write of the cached value; otherwise write through and cache on success. */
    method Set(v: string, fs: FileSystem) returns (err: Option<string>)
      modifies this, fs
      ensures (Fields(), fs.View(), err) == Write(old(Fields()), old(fs.View()), v)
    {
      if loaded && value == v {
        return None;
      }
      if file in fs.unwritable {
        return Some(fs.unwritable[file]);
      }
      fs.files := fs.files[file := v];
      value := v;
      loaded := true;
      return None;
    }
  }

  /** After a good `set(v)`, `get` on the same `Storage` returns `v`, without reading the disk. */
  lemma ReadOwnWrite(c: Cache, d: Disk, v: string)
    requires Write(c, d, v).2.None?
    ensures Read(Write(c, d, v).0, Write(c, d, v).1) == (v, None)
  {
  }

  /** After a good write, a fresh `Storage` on the same readable file reads `v` back from the disk. */
  lemma FreshReadAfterWrite(c: Cache, d: Disk, v: string)
    requires !(c.loaded && c.value == v)
    requires Write(c, d, v).2.None? && c.file !in d.unreadable
    ensures Read(Fresh(c.file), Write(c, d, v).1) == (v, None)
  {
  }

  /** A failed write leaves the fields and the disk as they were. */
  lemma FailedWriteChangesNothing(c: Cache, d: Disk, v: string)
    requires Write(c, d, v).2.Some?
    ensures Write(c, d, v).0 == c && Write(c, d, v).1 == d
    ensures c.file in d.unwritable && !(c.loaded && c.value == v)
  {
  }

  /** Writing the same value twice touches the disk once: the second write is skipped. */
  lemma SecondWriteSkipped(c: Cache, d: Disk, v: string)
    requires Write(c, d, v).2.None?
    ensures var (c1, d1, _) := Write(c, d, v);
      Write(c1, d1, v) == (c1, d1, None)
  {
  }

  /**
    The repository's round trip: a `Storage` on a writable, readable path
    sets a value, and a fresh `Storage` on the same path gets it back.
   */
  method SetThenGetFresh(path: string, v: string, fs: FileSystem) returns (got: string, err: Option<string>)
    requires path !in fs.unwritable && path !in fs.unreadable
    modifies fs
    ensures got == v && err.None?
    ensures fs.files == old(fs.files)[path := v]
  {
    var storage := new Storage(path);
    var setErr := storage.Set(v, fs);
    assert setErr.None?;
    var reopened := new Storage(path);
    got, err := reopened.Get(fs);
  }
}
