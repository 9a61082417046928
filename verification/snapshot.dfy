/** `main` and the helpers it calls (main.go): resolve the namespace, create
    `<destination>/<namespace>`, record the images, create
    `active_resources.txt`, list the namespaced kinds, then probe each kind
    and export the live ones to `<root>/<kind>/manifest_<kind>.yaml`.
    The global `active_resources` slice becomes the accumulator threaded
    through the per-kind loop, and every `os.Exit` an `Abort`. */
module Snapshot {
  import opened Text
  import opened Dedup
  import opened Kubectl
  import opened FileSystem
  import opened Fatal
  import opened Images

  const ActiveFile: string := "active_resources.txt"

  /** The two command-line flags. */
  datatype Args = Args(destination: string, namespace: string)

  /** What the run reports and keeps in memory at the end. `ticks` counts
      the progress bar's `Add(1)` calls. */
  datatype Summary = Summary(
    namespace: string,
    root: Path,
    imageCount: nat,
    imageErrors: seq<string>,
    active: seq<string>,
    activeCount: nat,
    total: nat,
    ticks: nat)

  /** How the process ends: the usage message (status 0), a fatal error
      (status 1), or completion (status 0); each with the file system it
      leaves behind. */
  datatype Exit = Usage(fs: Fs) | Failed(failure: Failure, fs: Fs) | Completed(summary: Summary, fs: Fs)

  /** The namespace: the flag when it is given, else the current context's
      default namespace, which must be obtainable and non-empty. */
  function ResolveNamespace(explicit: string, c: Cluster, fs: Fs): (r: Res<string>)
    ensures r.Proceed? ==> r.value != ""
    ensures explicit != "" ==> r == Proceed(explicit)
    ensures explicit == "" ==>
      (r.Proceed? <==> c.configNamespace.Ok? && c.configNamespace.stdout != "")
    ensures explicit == "" && r.Proceed? ==> c.configNamespace == Ok(r.value)
    ensures r.Abort? ==>
      r.fs == fs && r.failure == (if c.configNamespace.Err? then NamespaceQueryFailed else NoDefaultNamespace)
  {
    if explicit != "" then Proceed(explicit)
    else
      match c.configNamespace
      case Err(_, _) => Abort(NamespaceQueryFailed, fs)
      case Ok(out) => if out == "" then Abort(NoDefaultNamespace, fs) else Proceed(out)
  }

  /** `create_directory`: fatal whenever `os.Stat` does not report "does not
      exist", in particular when the path exists already. */
  function CreateDirectory(fs: Fs, p: Path): (r: Res<Fs>)
    ensures Exists(fs, p) ==> r == Abort(DirectoryExists(p), fs)
    ensures !Exists(fs, p) && UnderFile(fs, p) ==> r == Abort(DirectoryExists(p), fs)
    ensures r.Proceed? <==> !Exists(fs, p) && !UnderFile(fs, p) && p !in fs.faults.mkdir
    ensures r.Proceed? ==> r.value == fs.(dirs := fs.dirs + {p})
    ensures r.Abort? ==> r.fs == fs
  {
    if Stat(fs, p) == NotFound then Must(MkdirAll(fs, p), DirectoryCreateFailed(p), fs)
    else Abort(DirectoryExists(p), fs)
  }

  /** Creating a directory is not idempotent: the second attempt is fatal. */
  lemma CreateDirectoryTwiceFails(fs: Fs, p: Path)
    requires CreateDirectory(fs, p).Proceed?
    ensures CreateDirectory(CreateDirectory(fs, p).value, p).Abort?
    ensures CreateDirectory(CreateDirectory(fs, p).value, p).failure == DirectoryExists(p)
  {
  }

  function ManifestName(kind: string): string {
    "manifest_" + kind + ".yaml"
  }

  /** Where the manifest of `kind` goes under the namespace directory. */
  function ManifestPath(nsPath: Path, kind: string): Path {
    nsPath + [kind, ManifestName(kind)]
  }

  /** `get_resource`: fetch `kubectl get <kind> -o yaml` and write its output
      verbatim to `manifest_<kind>.yaml` in `dir`; either failure is fatal. */
  function GetResource(fs: Fs, c: Cluster, dir: Path, kind: string): (r: Res<Fs>)
    ensures c.getYaml(kind).Err? ==> r == Abort(ResourceGetFailed(kind), fs)
    ensures r.Proceed? ==>
      && c.getYaml(kind).Ok?
      && r.value == fs.(files := fs.files[dir + [ManifestName(kind)] := Raw(c.getYaml(kind).stdout)])
    ensures c.getYaml(kind).Ok? ==>
      (r.Proceed? <==> dir + [ManifestName(kind)] !in fs.dirs
                       && dir + [ManifestName(kind)] !in fs.faults.write
                       && !UnderFile(fs, dir + [ManifestName(kind)]))
    ensures r.Abort? ==> r.fs == fs
  {
    var path := dir + [ManifestName(kind)];
    match c.getYaml(kind)
    case Err(_, _) => Abort(ResourceGetFailed(kind), fs)
    case Ok(out) => Must(WriteFile(fs, path, out), FileWriteFailed(path), fs)
  }

  /** `getAPIResources`: the namespaced kinds, one token per kind; any
      failure of the query is fatal. */
  function GetAPIResources(c: Cluster, ns: string, fs: Fs): (r: Res<seq<string>>)
    ensures r.Abort? <==> c.apiResources(ns).Err?
    ensures r.Abort? ==> r == Abort(ApiResourcesFailed, fs)
    ensures r.Proceed? ==>
      && AllTokens(r.value)
      && Flatten(r.value) == RemoveSpaces(c.apiResources(ns).stdout)
  {
    match c.apiResources(ns)
    case Err(_, _) => Abort(ApiResourcesFailed, fs)
    case Ok(out) =>
      FieldsAreTokens(out);
      FieldsKeepNonSpace(out);
      Proceed(Fields(out))
  }

  /** The body of the per-kind loop for a live kind: append its name to
      `active_resources.txt`, create `<nsPath>/<kind>`, export its manifest.
      Each of the three steps is fatal when it fails. */
  function ExportKind(fs: Fs, c: Cluster, nsPath: Path, kind: string): (r: Res<Fs>)
    ensures r.Proceed? <==>
      && nsPath + [ActiveFile] !in fs.faults.write
      && kind != ActiveFile
      && !Exists(fs, nsPath + [kind]) && !UnderFile(fs, nsPath + [kind]) && nsPath + [kind] !in fs.faults.mkdir
      && c.getYaml(kind).Ok?
      && ManifestPath(nsPath, kind) !in fs.dirs && ManifestPath(nsPath, kind) !in fs.faults.write
    ensures r.Proceed? ==>
      r.value == fs.(dirs := fs.dirs + {nsPath + [kind]},
                     files := fs.files[nsPath + [ActiveFile] := Lines(LinesOf(fs, nsPath + [ActiveFile]) + [kind])]
                                      [ManifestPath(nsPath, kind) := Raw(c.getYaml(kind).stdout)])
    ensures nsPath + [ActiveFile] in fs.faults.write ==> r == Abort(FileWriteFailed(nsPath + [ActiveFile]), fs)
    ensures nsPath + [ActiveFile] !in fs.faults.write && Exists(fs, nsPath + [kind]) ==>
      r.Abort? && r.failure == DirectoryExists(nsPath + [kind])
    ensures r.Abort? ==> Grows(fs, r.fs)
  {
    var active := nsPath + [ActiveFile];
    var dir := nsPath + [kind];
    var fs1 :- Must(WriteString(fs, active, kind), FileWriteFailed(active), fs);
    UnderFileAfterWrite(fs, active, Lines(LinesOf(fs, active) + [kind]), dir);
    assert dir == active <==> kind == ActiveFile by {
      assert dir[|nsPath|] == kind && active[|nsPath|] == ActiveFile;
    }
    assert Exists(fs1, dir) <==> Exists(fs, dir) || kind == ActiveFile;
    var fs2 :- CreateDirectory(fs1, dir);
    UnderFileChild(fs2, dir, ManifestName(kind));
    assert dir + [ManifestName(kind)] == ManifestPath(nsPath, kind);
    assert ManifestPath(nsPath, kind) != dir by {
      assert |ManifestPath(nsPath, kind)| != |dir|;
    }
    GetResource(fs2, c, dir, kind)
  }

  /** The state threaded through the per-kind loop: the file system, the
      `active_resources` accumulator, `activeCount` and the progress ticks. */
  datatype Progress = Progress(fs: Fs, active: seq<string>, activeCount: nat, ticks: nat)

  /** The per-kind loop of `main`: each kind ticks the progress bar once and
      is exported when its probe says it is live. */
  function ProcessKinds(c: Cluster, nsPath: Path, kinds: seq<string>, st: Progress): Res<Progress>
    decreases |kinds|
  {
    if |kinds| == 0 then Proceed(st)
    else
      var kind := kinds[0];
      var ticked := st.(ticks := st.ticks + 1);
      if !Live(c, kind) then ProcessKinds(c, nsPath, kinds[1..], ticked)
      else
        var fs' :- ExportKind(st.fs, c, nsPath, kind);
        ProcessKinds(c, nsPath, kinds[1..], Progress(fs', st.active + [kind], st.activeCount + 1, ticked.ticks))
  }

  /** The directories of `kinds` under `nsPath`. */
  function KindDirs(nsPath: Path, kinds: seq<string>): set<Path> {
    set kind | kind in kinds :: nsPath + [kind]
  }

  /** The manifest files of `kinds` under `nsPath`. */
  function ManifestPaths(nsPath: Path, kinds: seq<string>): set<Path> {
    set kind | kind in kinds :: ManifestPath(nsPath, kind)
  }

  /** The steps before the catalog query: resolve the namespace, create
      `<destination>/<namespace>`, write `docker_images.txt` and create the
      empty `active_resources.txt`. Gives the namespace, the disk and the
      printed image count. Each step is fatal when it fails. */
  function Prepare(args: Args, c: Cluster, fs: Fs): (r: Res<(string, Fs, nat)>)
    ensures r.Proceed? <==>
      && ResolveNamespace(args.namespace, c, fs).Proceed?
      && var root := [args.destination, ResolveNamespace(args.namespace, c, fs).value];
         var images := root + [ImagesFile];
         var active := root + [ActiveFile];
         && !Exists(fs, root) && !UnderFile(fs, root) && root !in fs.faults.mkdir
         && images !in fs.dirs && images !in fs.faults.create
         && (Distinct(ImagesOf(c, root[1], WorkloadKinds)) == [] || images !in fs.faults.write)
         && active !in fs.dirs && active !in fs.faults.create
    ensures r.Abort? ==> r.failure != ApiResourcesFailed && Grows(fs, r.fs)
    ensures ResolveNamespace(args.namespace, c, fs).Abort? ==>
      r == Abort(ResolveNamespace(args.namespace, c, fs).failure, fs)
    ensures r.Proceed? ==>
      var (ns, fs2, count) := r.value;
      var root := [args.destination, ns];
      var images := Distinct(ImagesOf(c, ns, WorkloadKinds));
      && ResolveNamespace(args.namespace, c, fs) == Proceed(ns)
      && !Exists(fs, root)
      && fs2 == fs.(dirs := fs.dirs + {root},
                    files := fs.files[root + [ImagesFile] := Lines(images)][root + [ActiveFile] := Lines([])])
      && count == |images|
  {
    var ns :- ResolveNamespace(args.namespace, c, fs);
    var root := [args.destination, ns];
    var fs1 :- CreateDirectory(fs, root);
    UnderFileChild(fs, root, ImagesFile);
    UnderFileChild(fs, root, ActiveFile);
    assert root + [ImagesFile] != root && root + [ActiveFile] != root;
    var written :- WriteImages(fs1, root, ImagesOf(c, ns, WorkloadKinds));
    UnderFileAfterWrite(fs1, root + [ImagesFile], Lines(Distinct(ImagesOf(c, ns, WorkloadKinds))), root + [ActiveFile]);
    var fs2 :- Must(Create(written.0, root + [ActiveFile]), FileCreateFailed(root + [ActiveFile]), written.0);
    Proceed((ns, fs2, written.1))
  }

  /** Everything after the destination check, as one chain of fatal steps. */
  function Pipeline(args: Args, c: Cluster, fs: Fs): Res<(Summary, Fs)> {
    var prepared :- Prepare(args, c, fs);
    var (ns, fs2, imageCount) := prepared;
    var root := [args.destination, ns];
    var kinds :- GetAPIResources(c, ns, fs2);
    var st :- ProcessKinds(c, root, kinds, Progress(fs2, [], 0, 0));
    Proceed((Summary(ns, root, imageCount, ReportedOf(c, ns, WorkloadKinds),
                     st.active, st.activeCount, |kinds|, st.ticks), st.fs))
  }

  /** `main`. */
  function Run(args: Args, c: Cluster, fs: Fs): Exit {
    if args.destination == "" then Usage(fs)
    else if Stat(fs, [args.destination]) != Found then Failed(DestinationMissing(args.destination), fs)
    else
      match Pipeline(args, c, fs)
      case Proceed(v) => Completed(v.0, v.1)
      case Abort(f, fs') => Failed(f, fs')
  }
}
