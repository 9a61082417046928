/** A worked run of the snapshot tool against a small cluster: the context's
    namespace is `team`, the catalog lists `pods` and `configmaps`, only pods
    exist, and no workload kind has images. */
module Scenario {
  import opened Text
  import opened Dedup
  import opened Kubectl
  import opened FileSystem
  import opened Fatal
  import opened Images
  import opened Snapshot

  function SmallCluster(): Cluster {
    Cluster(
      Ok("team"),
      ns => Ok(JoinSpaced(["pods", "configmaps"])),
      kind => if kind == "pods" then Ok("web-0") else Err("", "Forbidden"),
      kind => Ok("kind: List"),
      (kind, ns) => Err("", "not found"))
  }

  /** An empty disk apart from the destination directory `out`. */
  function EmptyDisk(): Fs {
    Fs({["out"]}, map[], Faults({}, {}, {}))
  }

  lemma NoImagesAnywhere(ns: string, kinds: seq<string>)
    ensures ImagesOf(SmallCluster(), ns, kinds) == []
    ensures ReportedOf(SmallCluster(), ns, kinds) == []
    decreases |kinds|
  {
    if |kinds| > 0 {
      assert KindNotFound(SmallCluster().getImages(kinds[0], ns));
      NoImagesAnywhere(ns, kinds[1..]);
    }
  }

  const Root: Path := ["out", "team"]
  const ImagesPath: Path := ["out", "team", "docker_images.txt"]
  const ActivePath: Path := ["out", "team", "active_resources.txt"]
  const PodsDir: Path := ["out", "team", "pods"]
  const PodsManifest: Path := PodsDir + [ManifestName("pods")]

  /** The disk once the root exists, the images are written and the
      tracking file is created. */
  function BeforeCatalog(): Fs {
    Fs({["out"], Root}, map[ImagesPath := Lines([]), ActivePath := Lines([])], Faults({}, {}, {}))
  }

  /** The disk once the pods are exported. */
  function AfterPods(): Fs {
    Fs({["out"], Root, PodsDir},
       map[ImagesPath := Lines([]), ActivePath := Lines(["pods"]), PodsManifest := Raw("kind: List")],
       Faults({}, {}, {}))
  }

  lemma PathsApart()
    ensures ActivePath != ImagesPath && PodsManifest != ImagesPath && PodsManifest != ActivePath
  {
    assert |PodsManifest| == 4;
    assert ActivePath[2][0] == 'a' && ImagesPath[2][0] == 'd';
  }

  lemma ShortPrefixes(p: Path, fs: Fs)
    requires forall q :: q in fs.files ==> |q| >= 3
    requires |p| <= 3
    ensures !UnderFile(fs, p)
  {
    forall k | 0 < k < |p| ensures p[..k] !in fs.files {
      assert |p[..k]| < 3;
    }
  }

  /** The disk once the root exists. */
  function WithRoot(): Fs {
    EmptyDisk().(dirs := {["out"], Root})
  }

  /** The disk once the images file is written. */
  function WithImages(): Fs {
    WithRoot().(files := map[ImagesPath := Lines([])])
  }

  lemma SmallClusterRoot()
    ensures ResolveNamespace("", SmallCluster(), EmptyDisk()) == Proceed("team")
    ensures CreateDirectory(EmptyDisk(), Root) == Proceed(WithRoot())
  {
    ShortPrefixes(Root, EmptyDisk());
    assert Root != ["out"] by {
      assert |Root| == 2;
    }
    assert !Exists(EmptyDisk(), Root);
    assert EmptyDisk().dirs + {Root} == WithRoot().dirs;
  }

  lemma SmallClusterImages()
    ensures WriteImages(WithRoot(), Root, ImagesOf(SmallCluster(), "team", WorkloadKinds)) == Proceed((WithImages(), 0))
  {
    NoImagesAnywhere("team", WorkloadKinds);
    ShortPrefixes(ImagesPath, WithRoot());
    assert Root + [ImagesFile] == ImagesPath;
    assert ImagesPath !in WithRoot().dirs by {
      assert |ImagesPath| == 3;
    }
    assert Distinct([]) == [];
    var r := WriteImages(WithRoot(), Root, []);
    assert r.Proceed?;
    assert WithRoot().(files := WithRoot().files[ImagesPath := Lines([])]) == WithImages();
  }

  lemma SmallClusterTrackingFile()
    ensures Create(WithImages(), Root + [ActiveFile]) == Done(BeforeCatalog())
  {
    PathsApart();
    ShortPrefixes(ActivePath, WithImages());
    assert Root + [ActiveFile] == ActivePath;
    assert WithImages().files[ActivePath := Lines([])] == BeforeCatalog().files;
  }

  /** The steps before the catalog query, in that cluster. */
  lemma SmallClusterSetup()
    ensures Prepare(Args("out", ""), SmallCluster(), EmptyDisk()) == Proceed(("team", BeforeCatalog(), 0))
  {
    SmallClusterRoot();
    SmallClusterImages();
    SmallClusterTrackingFile();
  }

  lemma SmallClusterCatalog()
    ensures GetAPIResources(SmallCluster(), "team", BeforeCatalog()) == Proceed(["pods", "configmaps"])
  {
    FieldsOfJoinSpaced(["pods", "configmaps"]);
  }

  lemma SmallClusterExport()
    ensures ExportKind(BeforeCatalog(), SmallCluster(), Root, "pods") == Proceed(AfterPods())
  {
    var fs, c := BeforeCatalog(), SmallCluster();
    PathsApart();
    assert Root + [ActiveFile] == ActivePath;
    assert Root + ["pods"] == PodsDir;
    assert ManifestPath(Root, "pods") == PodsManifest;
    assert "pods" != ActiveFile;
    ShortPrefixes(PodsDir, fs);
    assert !Exists(fs, PodsDir) by {
      assert |PodsDir| == 3 && PodsDir[2][0] == 'p';
    }
    assert PodsManifest !in fs.dirs by {
      assert |PodsManifest| == 4;
    }
    assert c.getYaml("pods") == Ok("kind: List");
    assert LinesOf(fs, ActivePath) + ["pods"] == ["pods"];
    assert fs.dirs + {PodsDir} == AfterPods().dirs;
    assert fs.files[ActivePath := Lines(["pods"])][PodsManifest := Raw("kind: List")] == AfterPods().files;
  }

  lemma SmallClusterLoop()
    ensures ProcessKinds(SmallCluster(), Root, ["pods", "configmaps"], Progress(BeforeCatalog(), [], 0, 0))
         == Proceed(Progress(AfterPods(), ["pods"], 1, 2))
  {
    var c := SmallCluster();
    assert Live(c, "pods") && !Live(c, "configmaps");
    SmallClusterExport();
    assert ["pods", "configmaps"][1..] == ["configmaps"];
    assert ["configmaps"][1..] == [];
    assert [] + ["pods"] == ["pods"];
    assert ProcessKinds(c, Root, [], Progress(AfterPods(), ["pods"], 1, 2))
        == Proceed(Progress(AfterPods(), ["pods"], 1, 2));
    assert ProcessKinds(c, Root, ["configmaps"], Progress(AfterPods(), ["pods"], 1, 1))
        == Proceed(Progress(AfterPods(), ["pods"], 1, 2));
  }

  /** With no `-n`, the run completes in `out/team`: the only live kind,
      `pods`, gets its directory and manifest and is the only line of
      `active_resources.txt`; `configmaps` is probed but leaves no trace;
      `docker_images.txt` is empty. */
  lemma SmallClusterRun()
    ensures Run(Args("out", ""), SmallCluster(), EmptyDisk()) ==
      Completed(Summary("team", Root, 0, [], ["pods"], 1, 2, 2), AfterPods())
  {
    NoImagesAnywhere("team", WorkloadKinds);
    SmallClusterSetup();
    SmallClusterCatalog();
    SmallClusterLoop();
    assert Stat(EmptyDisk(), ["out"]) == Found;
  }
}
