/**
  The files an image write touches (tagwrite.go). A write or a removal succeeds,
  fails before it takes effect, or fails after it: writeFileAtomic reports an error
  when the directory sync after the rename fails, and the new bytes are there.
 */
module Disks {
  import opened Text

  datatype Outcome = Synced | Untouched | Unsynced

  type Paths = map<string, string>

  /** What a path holds; None when there is no file. */
  function Get(d: Paths, path: string): Option<string> {
    if path in d then Some(d[path]) else None
  }

  function Put(d: Paths, path: string, content: Option<string>): (r: Paths)
    ensures Get(r, path) == content
    ensures forall p :: p != path ==> Get(r, p) == Get(d, p)
  {
    match content
    case Some(data) => d[path := data]
    case None => d - {path}
  }

  lemma SamePaths(a: Paths, b: Paths)
    requires forall p :: Get(a, p) == Get(b, p)
    ensures a == b
  {
    forall p
      ensures p in a <==> p in b
      ensures p in a ==> a[p] == b[p]
    {
      assert Get(a, p) == Get(b, p);
    }
  }

  class Disk {
    var files: Paths

    /** writeFileAtomic. */
    method WriteAtomic(path: string, data: string, o: Outcome) returns (ok: bool)
      modifies this
      ensures ok <==> o.Synced?
      ensures files == if o.Untouched? then old(files) else Put(old(files), path, Some(data))
    {
      if o.Untouched? {
        return false;
      }
      files := files[path := data];
      return o.Synced?;
    }

    /** restoreFile: writes content back, or removes the file when it should not exist. */
    method RestoreFile(path: string, content: string, wanted: bool, o: Outcome) returns (ok: bool)
      modifies this
      ensures var want := if wanted then Some(content) else None;
        && (ok <==> o.Synced? || (want.None? && path !in old(files)))
        && files == if o.Untouched? || (want.None? && path !in old(files)) then old(files) else Put(old(files), path, want)
    {
      if wanted {
        ok := WriteAtomic(path, content, o);
        return;
      }
      if path !in files {
        return true;
      }
      if o.Untouched? {
        return false;
      }
      files := files - {path};
      return o.Synced?;
    }
  }
}
