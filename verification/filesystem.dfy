/** The part of the operating system the tool touches: directories, text
    files written line by line, and raw files. The real calls (`os.Stat`,
    `os.MkdirAll`, `os.Create`, `File.WriteString`, `os.WriteFile`) become
    pure functions over an abstract state; the environment's refusals
    (permissions, a full disk) are given up front as fault sets. */
module FileSystem {

  /** A path as its list of components; `filepath.Join(p, name)` is `p + [name]`. */
  type Path = seq<string>

  /** A text file held as the lines written to it (each followed by a newline
      on disk), or a file holding an opaque payload written in one go. */
  datatype Content = Lines(lines: seq<string>) | Raw(bytes: string)

  /** The paths on which the environment makes `MkdirAll`, `Create` or a write fail. */
  datatype Faults = Faults(mkdir: set<Path>, create: set<Path>, write: set<Path>)

  datatype Fs = Fs(dirs: set<Path>, files: map<Path, Content>, faults: Faults)

  /** The outcome of one system call. */
  datatype Io = Done(fs: Fs) | IoFailed

  predicate Exists(fs: Fs, p: Path) {
    p in fs.dirs || p in fs.files
  }

  /** Some proper ancestor of `p` is a regular file. */
  predicate UnderFile(fs: Fs, p: Path) {
    exists k :: 0 < k < |p| && p[..k] in fs.files
  }

  datatype StatResult = Found | NotFound | StatError

  /** `os.Stat`: a path under a regular file gives an error (ENOTDIR) that
      `os.IsNotExist` does not recognise. */
  function Stat(fs: Fs, p: Path): (r: StatResult)
    ensures r == Found <==> Exists(fs, p)
    ensures r == StatError ==> exists k :: 0 < k < |p| && p[..k] in fs.files
  {
    if Exists(fs, p) then Found
    else if UnderFile(fs, p) then StatError
    else NotFound
  }

  /** `os.MkdirAll(p, 0755)`, called only where the parent of `p` exists. */
  function MkdirAll(fs: Fs, p: Path): (r: Io)
    ensures Stat(fs, p) == NotFound ==> (r.Done? <==> p !in fs.faults.mkdir)
    ensures r.Done? ==>
      && Grows(fs, r.fs) && r.fs.files == fs.files && Stat(r.fs, p) == Found
      && (forall q :: Exists(r.fs, q) <==> Exists(fs, q) || q == p)
  {
    if p in fs.faults.mkdir || p in fs.files || UnderFile(fs, p) then IoFailed
    else Done(fs.(dirs := fs.dirs + {p}))
  }

  /** `os.Create(p)`: creates or truncates a file; fails on a directory. */
  function Create(fs: Fs, p: Path): (r: Io)
    ensures r.Done? ==>
      && Grows(fs, r.fs) && r.fs.dirs == fs.dirs && Stat(r.fs, p) == Found && LinesOf(r.fs, p) == []
      && (forall q :: q in fs.files && q != p ==> r.fs.files[q] == fs.files[q])
  {
    if p in fs.dirs || p in fs.faults.create || UnderFile(fs, p) then IoFailed
    else Done(fs.(files := fs.files[p := Lines([])]))
  }

  /** The lines written so far to the text file at `p`. */
  function LinesOf(fs: Fs, p: Path): seq<string> {
    if p in fs.files && fs.files[p].Lines? then fs.files[p].lines else []
  }

  /** `WriteString(line + "\n")` on the file opened at `p`. */
  function WriteString(fs: Fs, p: Path, line: string): (r: Io)
    ensures r.Done? <==> p !in fs.faults.write
    ensures r.Done? ==>
      && Grows(fs, r.fs) && r.fs.dirs == fs.dirs && LinesOf(r.fs, p) == LinesOf(fs, p) + [line]
      && (forall q :: q in fs.files && q != p ==> r.fs.files[q] == fs.files[q])
  {
    if p in fs.faults.write then IoFailed
    else Done(fs.(files := fs.files[p := Lines(LinesOf(fs, p) + [line])]))
  }

  /** `os.WriteFile(p, bytes, 0644)`: creates or truncates, then writes. */
  function WriteFile(fs: Fs, p: Path, bytes: string): (r: Io)
    ensures r.Done? ==>
      && Grows(fs, r.fs) && r.fs.dirs == fs.dirs && Stat(r.fs, p) == Found
      && p in r.fs.files && r.fs.files[p] == Raw(bytes) && LinesOf(r.fs, p) == []
      && (forall q :: q in fs.files && q != p ==> r.fs.files[q] == fs.files[q])
  {
    if p in fs.dirs || p in fs.faults.write || UnderFile(fs, p) then IoFailed
    else Done(fs.(files := fs.files[p := Raw(bytes)]))
  }

  /** `after` has everything `before` has: nothing is ever removed. */
  predicate Grows(before: Fs, after: Fs) {
    && before.dirs <= after.dirs
    && before.files.Keys <= after.files.Keys
    && before.faults == after.faults
  }

  /** A path one component below `p` lies under a file exactly when `p`
      does or `p` is itself a file. */
  lemma UnderFileChild(fs: Fs, p: Path, name: string)
    requires |p| > 0
    ensures UnderFile(fs, p + [name]) <==> UnderFile(fs, p) || p in fs.files
  {
    var q := p + [name];
    assert q[..|p|] == p;
    forall k | 0 < k < |p| ensures q[..k] == p[..k] {
    }
    if UnderFile(fs, q) {
      var k :| 0 < k < |q| && q[..k] in fs.files;
      if k < |p| {
        assert p[..k] in fs.files;
      }
    }
  }

  /** Writing a file no shorter than `p` cannot put `p` under a file. */
  lemma UnderFileAfterWrite(fs: Fs, q: Path, content: Content, p: Path)
    requires |q| >= |p|
    ensures UnderFile(fs.(files := fs.files[q := content]), p) <==> UnderFile(fs, p)
  {
    var fs' := fs.(files := fs.files[q := content]);
    if UnderFile(fs', p) {
      var k :| 0 < k < |p| && p[..k] in fs'.files;
      assert p[..k] != q;
    }
  }
}
