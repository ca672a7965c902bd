/** The part of the file system the pipeline touches: a set of directory
    paths that exist, and for some of them the text of the `deploy.prop`
    file inside. Paths are opaque strings; nesting between them is not
    modelled. */
module Disk {
  import opened Outcomes

  datatype Disk = Disk(dirs: set<string>, files: map<string, string>)
  {
    /** Every property file lives in a directory that exists. */
    predicate Valid()
    {
      files.Keys <= dirs
    }
  }

  /** `open(dir/deploy.prop).read()`. */
  function ReadFile(d: Disk, dir: string): (r: Result<string>)
    ensures r.Ok? <==> dir in d.files
    ensures r.Ok? ==> r.value == d.files[dir]
  {
    if dir in d.files then Ok(d.files[dir]) else Err(NoSuchFile(dir))
  }

  /** `open(dir/deploy.prop, 'w').write(text)`: fails when the directory
      is missing, otherwise replaces the file and nothing else. */
  function WriteFile(d: Disk, dir: string, text: string): (r: Result<Disk>)
    ensures r.Ok? <==> dir in d.dirs
    ensures r.Ok? ==> r.value.dirs == d.dirs && r.value.files == d.files[dir := text]
    ensures d.Valid() && r.Ok? ==> r.value.Valid()
  {
    if dir in d.dirs then Ok(d.(files := d.files[dir := text])) else Err(NoSuchFile(dir))
  }

  /** The state a successful `os.mkdir(dir)` leaves: the directory exists
      and holds no property file. */
  function MakeDir(d: Disk, dir: string): (r: Disk)
    ensures r.dirs == d.dirs + {dir}
    ensures dir !in r.files
    ensures forall p :: p in r.files <==> p in d.files && p != dir
    ensures d.Valid() ==> r.Valid()
  {
    Disk(d.dirs + {dir}, d.files - {dir})
  }

  /** `shutil.rmtree(dir)`: fails when the directory is missing. */
  function RemoveTree(d: Disk, dir: string): (r: Result<Disk>)
    ensures r.Ok? <==> dir in d.dirs
    ensures r.Ok? ==> r.value.dirs == d.dirs - {dir} && r.value.files == d.files - {dir}
    ensures d.Valid() && r.Ok? ==> r.value.Valid()
  {
    if dir in d.dirs then Ok(Disk(d.dirs - {dir}, d.files - {dir})) else Err(NoSuchFile(dir))
  }

  /** `os.rename(from, to)` of a directory, together with its property
      file. Fails when `from` is missing or `to` is already there. */
  function Rename(d: Disk, from: string, to: string): (r: Result<Disk>)
    ensures r.Ok? <==> from in d.dirs && to !in d.dirs
    ensures r.Ok? ==> r.value.dirs == d.dirs - {from} + {to}
    ensures r.Ok? && from in d.files ==> r.value.files == (d.files - {from})[to := d.files[from]]
    ensures r.Ok? && from !in d.files ==> r.value.files == d.files - {from} - {to}
    ensures d.Valid() && r.Ok? ==> r.value.Valid()
  {
    if from !in d.dirs then Err(NoSuchFile(from))
    else if to in d.dirs then Err(PathExists(to))
    else
      var moved := d.files - {from} - {to};
      Ok(Disk(d.dirs - {from} + {to}, if from in d.files then moved[to := d.files[from]] else moved))
  }

  /** Renaming a directory and then writing its file leaves the same
      state however the source's file stood. */
  lemma RenameThenWrite(d: Disk, from: string, to: string, text: string)
    requires from in d.dirs && to !in d.dirs
    ensures Rename(d, from, to).Ok?
    ensures WriteFile(Rename(d, from, to).value, to, text) ==
      Ok(Disk(d.dirs - {from} + {to}, (d.files - {from})[to := text]))
  {
    var moved := Rename(d, from, to).value;
    var written := WriteFile(moved, to, text).value;
    assert written.files == (d.files - {from})[to := text];
  }

  lemma RenameBackAndForth(d: Disk, a: string, b: string)
    requires d.Valid() && a in d.dirs && b !in d.dirs
    ensures Rename(d, a, b).Ok?
    ensures Rename(Rename(d, a, b).value, b, a) == Ok(d)
  {
    var there := Rename(d, a, b).value;
    var back := Rename(there, b, a).value;
    assert back.dirs == d.dirs;
    if a in d.files {
      assert back.files == d.files;
    } else {
      assert back.files == d.files;
    }
  }
}
