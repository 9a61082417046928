/** What a run of the snapshot tool guarantees: the per-kind loop's
    bookkeeping, the layout of a completed snapshot, and the fatal exits. */
module SnapshotProperties {
  import opened Text
  import opened Dedup
  import opened Kubectl
  import opened FileSystem
  import opened Fatal
  import opened Images
  import opened Snapshot

  lemma KindDirsCons(nsPath: Path, kind: string, rest: seq<string>)
    ensures KindDirs(nsPath, [kind] + rest) == {nsPath + [kind]} + KindDirs(nsPath, rest)
    ensures ManifestPaths(nsPath, [kind] + rest) == {ManifestPath(nsPath, kind)} + ManifestPaths(nsPath, rest)
  {
    assert forall k :: k in [kind] + rest <==> k == kind || k in rest;
  }

  /** Manifest paths of different kinds differ, and none is the tracking file. */
  lemma ManifestPathsApart(nsPath: Path, kind: string, other: string)
    ensures ManifestPath(nsPath, kind) == ManifestPath(nsPath, other) ==> kind == other
    ensures ManifestPath(nsPath, kind) != nsPath + [ActiveFile]
  {
    if ManifestPath(nsPath, kind) == ManifestPath(nsPath, other) {
      assert ManifestPath(nsPath, kind)[|nsPath|] == kind;
      assert ManifestPath(nsPath, other)[|nsPath|] == other;
    }
    assert |ManifestPath(nsPath, kind)| == |nsPath| + 2;
  }

  /** The per-kind loop's counters, when it completes: the accumulator is
      the live kinds in catalog order, the count is its length, and the
      progress bar advanced once per kind. */
  lemma {:induction false} ProcessKindsCounts(c: Cluster, nsPath: Path, kinds: seq<string>, st: Progress)
    requires ProcessKinds(c, nsPath, kinds, st).Proceed?
    ensures var r := ProcessKinds(c, nsPath, kinds, st).value;
      && r.active == st.active + LiveKinds(c, kinds)
      && r.activeCount == st.activeCount + |LiveKinds(c, kinds)|
      && r.ticks == st.ticks + |kinds|
    decreases |kinds|
  {
    if |kinds| > 0 {
      var kind := kinds[0];
      var ticked := st.(ticks := st.ticks + 1);
      if !Live(c, kind) {
        ProcessKindsCounts(c, nsPath, kinds[1..], ticked);
      } else {
        var next := Progress(ExportKind(st.fs, c, nsPath, kind).value, st.active + [kind], st.activeCount + 1, ticked.ticks);
        assert ProcessKinds(c, nsPath, kinds, st) == ProcessKinds(c, nsPath, kinds[1..], next);
        var liveRest := LiveKinds(c, kinds[1..]);
        assert LiveKinds(c, kinds) == [kind] + liveRest;
        assert st.active + [kind] + liveRest == st.active + ([kind] + liveRest);
        ProcessKindsCounts(c, nsPath, kinds[1..], next);
      }
    }
  }

  /** The per-kind loop's directories, when it completes: exactly the live
      kinds got a directory, each new, so no live kind is listed twice; the
      only files added are their manifests. */
  lemma {:induction false} ProcessKindsLayout(c: Cluster, nsPath: Path, kinds: seq<string>, st: Progress)
    requires nsPath + [ActiveFile] in st.fs.files
    requires ProcessKinds(c, nsPath, kinds, st).Proceed?
    ensures var r := ProcessKinds(c, nsPath, kinds, st).value;
      var live := LiveKinds(c, kinds);
      && r.fs.faults == st.fs.faults
      && r.fs.dirs == st.fs.dirs + KindDirs(nsPath, live)
      && r.fs.files.Keys == st.fs.files.Keys + ManifestPaths(nsPath, live)
      && NoDuplicates(live)
      && (forall kind :: kind in live ==> !Exists(st.fs, nsPath + [kind]))
    decreases |kinds|
  {
    if |kinds| > 0 {
      var kind := kinds[0];
      var rest := kinds[1..];
      var ticked := st.(ticks := st.ticks + 1);
      if !Live(c, kind) {
        ProcessKindsLayout(c, nsPath, rest, ticked);
      } else {
        var fs' := ExportKind(st.fs, c, nsPath, kind).value;
        ExportKindEffect(st.fs, c, nsPath, kind);
        ProcessKindsLayout(c, nsPath, rest, Progress(fs', st.active + [kind], st.activeCount + 1, ticked.ticks));
        var liveRest := LiveKinds(c, rest);
        assert LiveKinds(c, kinds) == [kind] + liveRest;
        KindDirsCons(nsPath, kind, liveRest);
        assert kind !in liveRest by {
          assert nsPath + [kind] in fs'.dirs;
        }
        NoDuplicatesCons(kind, liveRest);
      }
    }
  }

  lemma NoDuplicatesCons(x: string, s: seq<string>)
    requires x !in s && NoDuplicates(s)
    ensures NoDuplicates([x] + s)
  {
    forall i, j | 0 <= i < j < |[x] + s|
      ensures ([x] + s)[i] != ([x] + s)[j]
    {
      assert ([x] + s)[j] == s[j - 1];
      if i > 0 {
        assert ([x] + s)[i] == s[i - 1];
      }
    }
  }

  /** The effect of exporting one live kind, one fact at a time. */
  lemma ExportKindEffect(fs: Fs, c: Cluster, nsPath: Path, kind: string)
    requires ExportKind(fs, c, nsPath, kind).Proceed?
    ensures var fs' := ExportKind(fs, c, nsPath, kind).value;
      var active := nsPath + [ActiveFile];
      var m := ManifestPath(nsPath, kind);
      && fs'.dirs == fs.dirs + {nsPath + [kind]}
      && fs'.faults == fs.faults
      && LinesOf(fs', active) == LinesOf(fs, active) + [kind]
      && m in fs'.files && fs'.files[m] == Raw(c.getYaml(kind).stdout)
      && fs'.files.Keys == fs.files.Keys + {active, m}
      && (forall p :: p in fs.files && p != active && p != m ==> p in fs'.files && fs'.files[p] == fs.files[p])
  {
    ManifestPathsApart(nsPath, kind, kind);
  }

  /** The per-kind loop's tracking file, when the loop completes:
      `active_resources.txt` gained exactly the live kinds, in order. */
  lemma {:induction false} ProcessKindsActiveFile(c: Cluster, nsPath: Path, kinds: seq<string>, st: Progress)
    requires ProcessKinds(c, nsPath, kinds, st).Proceed?
    ensures LinesOf(ProcessKinds(c, nsPath, kinds, st).value.fs, nsPath + [ActiveFile])
            == LinesOf(st.fs, nsPath + [ActiveFile]) + LiveKinds(c, kinds)
    decreases |kinds|
  {
    if |kinds| > 0 {
      var kind := kinds[0];
      var ticked := st.(ticks := st.ticks + 1);
      if !Live(c, kind) {
        ProcessKindsActiveFile(c, nsPath, kinds[1..], ticked);
      } else {
        var active := nsPath + [ActiveFile];
        var fs' := ExportKind(st.fs, c, nsPath, kind).value;
        ExportKindEffect(st.fs, c, nsPath, kind);
        ProcessKindsActiveFile(c, nsPath, kinds[1..], Progress(fs', st.active + [kind], st.activeCount + 1, ticked.ticks));
        assert LinesOf(st.fs, active) + [kind] + LiveKinds(c, kinds[1..])
            == LinesOf(st.fs, active) + LiveKinds(c, kinds);
      }
    }
  }

  /** The per-kind loop's manifests, when the loop completes: each live
      kind's manifest holds its `kubectl get -o yaml` output, and every other
      file except `active_resources.txt` is as it was. */
  lemma {:induction false} ProcessKindsManifests(c: Cluster, nsPath: Path, kinds: seq<string>, st: Progress)
    requires nsPath + [ActiveFile] in st.fs.files
    requires ProcessKinds(c, nsPath, kinds, st).Proceed?
    ensures var r := ProcessKinds(c, nsPath, kinds, st).value;
      var live := LiveKinds(c, kinds);
      && (forall kind :: kind in live ==>
            ManifestPath(nsPath, kind) in r.fs.files
            && r.fs.files[ManifestPath(nsPath, kind)] == Raw(c.getYaml(kind).stdout))
      && (forall p :: p in st.fs.files && p != nsPath + [ActiveFile] && p !in ManifestPaths(nsPath, live) ==>
            p in r.fs.files && r.fs.files[p] == st.fs.files[p])
    decreases |kinds|
  {
    if |kinds| > 0 {
      var kind := kinds[0];
      var rest := kinds[1..];
      var ticked := st.(ticks := st.ticks + 1);
      if !Live(c, kind) {
        ProcessKindsManifests(c, nsPath, rest, ticked);
      } else {
        var active := nsPath + [ActiveFile];
        var fs' := ExportKind(st.fs, c, nsPath, kind).value;
        var st' := Progress(fs', st.active + [kind], st.activeCount + 1, ticked.ticks);
        var m := ManifestPath(nsPath, kind);
        ExportKindEffect(st.fs, c, nsPath, kind);
        ProcessKindsManifests(c, nsPath, rest, st');
        ProcessKindsLayout(c, nsPath, rest, st');
        var liveRest := LiveKinds(c, rest);
        assert LiveKinds(c, kinds) == [kind] + liveRest;
        assert kind !in liveRest by {
          assert nsPath + [kind] in fs'.dirs;
        }
        KindDirsCons(nsPath, kind, liveRest);
        assert m !in ManifestPaths(nsPath, liveRest) by {
          forall k | k in liveRest ensures ManifestPath(nsPath, k) != m {
            ManifestPathsApart(nsPath, k, kind);
          }
        }
        var r := ProcessKinds(c, nsPath, rest, st').value;
        assert m in r.fs.files && r.fs.files[m] == Raw(c.getYaml(kind).stdout);
        forall p | p in st.fs.files && p != active && p !in ManifestPaths(nsPath, [kind] + liveRest)
          ensures p in r.fs.files && r.fs.files[p] == st.fs.files[p]
        {
          assert p != m;
        }
      }
    }
  }

  /** The stages a completed run went through, and the state each left. */
  lemma PipelineStages(args: Args, c: Cluster, fs: Fs) returns (ns: string, fs2: Fs, catalog: seq<string>)
    requires Run(args, c, fs).Completed?
    ensures args.destination != "" && Exists(fs, [args.destination])
    ensures ResolveNamespace(args.namespace, c, fs) == Proceed(ns)
    ensures !Exists(fs, [args.destination, ns])
    ensures fs2 == fs.(dirs := fs.dirs + {[args.destination, ns]},
                       files := fs.files[[args.destination, ns, ImagesFile] := Lines(Distinct(ImagesOf(c, ns, WorkloadKinds)))]
                                        [[args.destination, ns, ActiveFile] := Lines([])])
    ensures c.apiResources(ns).Ok? && catalog == Fields(c.apiResources(ns).stdout)
    ensures ProcessKinds(c, [args.destination, ns], catalog, Progress(fs2, [], 0, 0)).Proceed?
    ensures var st := ProcessKinds(c, [args.destination, ns], catalog, Progress(fs2, [], 0, 0)).value;
      Run(args, c, fs) == Completed(Summary(ns, [args.destination, ns], |Distinct(ImagesOf(c, ns, WorkloadKinds))|,
                                            ReportedOf(c, ns, WorkloadKinds), st.active, st.activeCount,
                                            |catalog|, st.ticks), st.fs)
  {
    var prepared := Prepare(args, c, fs).value;
    ns, fs2 := prepared.0, prepared.1;
    assert [args.destination, ns] + [ImagesFile] == [args.destination, ns, ImagesFile];
    assert [args.destination, ns] + [ActiveFile] == [args.destination, ns, ActiveFile];
    catalog := GetAPIResources(c, ns, fs2).value;
  }

  /** A completed run, its counts: the namespace came from the flag or the
      context; the catalog query succeeded and every kind was probed once;
      the active list is the live kinds in catalog order, none twice, and
      its count is its length, at most the total. */
  lemma RunCompletedCounts(args: Args, c: Cluster, fs: Fs)
    requires Run(args, c, fs).Completed?
    ensures var s := Run(args, c, fs).summary;
      var catalog := Fields(c.apiResources(s.namespace).stdout);
      && args.destination != "" && Exists(fs, [args.destination])
      && s.namespace != ""
      && (args.namespace != "" ==> s.namespace == args.namespace)
      && (args.namespace == "" ==> c.configNamespace == Ok(s.namespace))
      && s.root == [args.destination, s.namespace]
      && !Exists(fs, s.root)
      && c.apiResources(s.namespace).Ok?
      && s.total == |catalog| && s.ticks == s.total
      && s.active == LiveKinds(c, catalog)
      && s.activeCount == |s.active| <= s.total
      && NoDuplicates(s.active)
      && s.imageErrors == ReportedOf(c, s.namespace, WorkloadKinds)
  {
    var ns, fs2, catalog := PipelineStages(args, c, fs);
    var root := [args.destination, ns];
    var st0 := Progress(fs2, [], 0, 0);
    assert root + [ActiveFile] == [args.destination, ns, ActiveFile];
    ProcessKindsCounts(c, root, catalog, st0);
    ProcessKindsLayout(c, root, catalog, st0);
    LiveKindsLength(c, catalog);
  }

  /** A completed run, its files: `active_resources.txt` lists the active
      kinds; `docker_images.txt` holds the deduplicated images and its line
      count is the reported count. */
  lemma RunCompletedFiles(args: Args, c: Cluster, fs: Fs)
    requires Run(args, c, fs).Completed?
    ensures var s := Run(args, c, fs).summary;
      var fs' := Run(args, c, fs).fs;
      && LinesOf(fs', s.root + [ActiveFile]) == s.active
      && LinesOf(fs', s.root + [ImagesFile]) == Distinct(ImagesOf(c, s.namespace, WorkloadKinds))
      && s.imageCount == |LinesOf(fs', s.root + [ImagesFile])|
  {
    var ns, fs2, catalog := PipelineStages(args, c, fs);
    var root := [args.destination, ns];
    assert root + [ActiveFile] == [args.destination, ns, ActiveFile];
    assert root + [ImagesFile] == [args.destination, ns, ImagesFile];
    SetupFiles(fs, root, Distinct(ImagesOf(c, ns, WorkloadKinds)));
    var st0 := Progress(fs2, [], 0, 0);
    LoopFiles(c, root, catalog, st0);
    var st := ProcessKinds(c, root, catalog, st0).value;
    assert Run(args, c, fs).summary.root == root && Run(args, c, fs).summary.active == st.active;
    assert Run(args, c, fs).fs == st.fs;
  }

  /** The two files the steps before the catalog query leave under `root`. */
  lemma SetupFiles(fs: Fs, root: Path, lines: seq<string>)
    ensures var fs2 := fs.(dirs := fs.dirs + {root},
                           files := fs.files[root + [ImagesFile] := Lines(lines)][root + [ActiveFile] := Lines([])]);
      && root + [ImagesFile] in fs2.files && root + [ActiveFile] in fs2.files
      && LinesOf(fs2, root + [ImagesFile]) == lines && LinesOf(fs2, root + [ActiveFile]) == []
  {
    assert root + [ImagesFile] != root + [ActiveFile] by {
      assert (root + [ImagesFile])[|root|][0] == 'd' && (root + [ActiveFile])[|root|][0] == 'a';
    }
  }

  /** The per-kind loop started with an empty tracking file: the tracking
      file ends up listing the accumulated kinds, and the images file is
      kept. */
  lemma LoopFiles(c: Cluster, root: Path, kinds: seq<string>, st: Progress)
    requires root + [ActiveFile] in st.fs.files && root + [ImagesFile] in st.fs.files
    requires LinesOf(st.fs, root + [ActiveFile]) == [] && st.active == []
    requires ProcessKinds(c, root, kinds, st).Proceed?
    ensures var r := ProcessKinds(c, root, kinds, st).value;
      && LinesOf(r.fs, root + [ActiveFile]) == r.active
      && LinesOf(r.fs, root + [ImagesFile]) == LinesOf(st.fs, root + [ImagesFile])
  {
    ProcessKindsCounts(c, root, kinds, st);
    ProcessKindsActiveFile(c, root, kinds, st);
    LoopKeepsImagesFile(c, root, kinds, st);
  }

  /** The per-kind loop leaves `docker_images.txt` as it found it. */
  lemma LoopKeepsImagesFile(c: Cluster, root: Path, kinds: seq<string>, st: Progress)
    requires root + [ActiveFile] in st.fs.files && root + [ImagesFile] in st.fs.files
    requires ProcessKinds(c, root, kinds, st).Proceed?
    ensures LinesOf(ProcessKinds(c, root, kinds, st).value.fs, root + [ImagesFile]) == LinesOf(st.fs, root + [ImagesFile])
  {
    var imagesPath := root + [ImagesFile];
    ProcessKindsManifests(c, root, kinds, st);
    assert imagesPath != root + [ActiveFile] by {
      assert imagesPath[|root|][0] == 'd' && (root + [ActiveFile])[|root|][0] == 'a';
    }
    assert imagesPath !in ManifestPaths(root, LiveKinds(c, kinds)) by {
      forall k | k in LiveKinds(c, kinds) ensures ManifestPath(root, k) != imagesPath {
        assert |ManifestPath(root, k)| != |imagesPath|;
      }
    }
  }

  /** A completed run, its manifests: each active kind's manifest holds its
      `kubectl get -o yaml` output. */
  lemma RunCompletedManifests(args: Args, c: Cluster, fs: Fs)
    requires Run(args, c, fs).Completed?
    ensures var s := Run(args, c, fs).summary;
      var fs' := Run(args, c, fs).fs;
      forall kind :: kind in s.active ==>
        ManifestPath(s.root, kind) in fs'.files
        && fs'.files[ManifestPath(s.root, kind)] == Raw(c.getYaml(kind).stdout)
  {
    var ns, fs2, catalog := PipelineStages(args, c, fs);
    var root := [args.destination, ns];
    assert root + [ActiveFile] == [args.destination, ns, ActiveFile];
    var st0 := Progress(fs2, [], 0, 0);
    ProcessKindsCounts(c, root, catalog, st0);
    ProcessKindsManifests(c, root, catalog, st0);
  }

  /** A completed run, its footprint: exactly the root and the active kinds'
      directories were created, and the only files written are the images
      file, the tracking file and the active kinds' manifests. */
  lemma RunCompletedLayout(args: Args, c: Cluster, fs: Fs)
    requires Run(args, c, fs).Completed?
    ensures var s := Run(args, c, fs).summary;
      var fs' := Run(args, c, fs).fs;
      && fs'.faults == fs.faults
      && fs'.dirs == fs.dirs + {s.root} + KindDirs(s.root, s.active)
      && fs'.files.Keys == fs.files.Keys + {s.root + [ImagesFile], s.root + [ActiveFile]} + ManifestPaths(s.root, s.active)
  {
    var ns, fs2, catalog := PipelineStages(args, c, fs);
    var root := [args.destination, ns];
    assert root + [ActiveFile] == [args.destination, ns, ActiveFile];
    assert root + [ImagesFile] == [args.destination, ns, ImagesFile];
    var st0 := Progress(fs2, [], 0, 0);
    ProcessKindsCounts(c, root, catalog, st0);
    ProcessKindsLayout(c, root, catalog, st0);
  }

  /** Running the tool a second time against the same destination, without
      removing the first output, fails on the existing root directory and
      writes nothing. */
  lemma SecondRunFails(args: Args, c: Cluster, fs: Fs)
    requires Run(args, c, fs).Completed?
    ensures var first := Run(args, c, fs);
      Run(args, c, first.fs) == Failed(DirectoryExists(first.summary.root), first.fs)
  {
    RunCompletedCounts(args, c, fs);
    RunCompletedLayout(args, c, fs);
    var first := Run(args, c, fs);
    assert Exists(first.fs, [args.destination]);
    assert first.summary.root in first.fs.dirs;
  }

  /** The exits that come before the root directory is created leave the
      file system as it was: no destination flag (usage), a destination
      that does not exist, and an unresolvable namespace. */
  lemma EarlyExitsWriteNothing(args: Args, c: Cluster, fs: Fs)
    ensures args.destination == "" ==> Run(args, c, fs) == Usage(fs)
    ensures args.destination != "" && !Exists(fs, [args.destination]) ==>
      Run(args, c, fs) == Failed(DestinationMissing(args.destination), fs)
    ensures args.destination != "" && Exists(fs, [args.destination]) && args.namespace == "" ==>
      && (c.configNamespace.Err? ==> Run(args, c, fs) == Failed(NamespaceQueryFailed, fs))
      && (c.configNamespace == Ok([]) ==> Run(args, c, fs) == Failed(NoDefaultNamespace, fs))
  {
    assert !UnderFile(fs, [args.destination]);
  }

  /** An existing `<destination>/<namespace>` is fatal before anything is
      written. */
  lemma ExistingRootIsFatal(args: Args, c: Cluster, fs: Fs, ns: string)
    requires args.destination != "" && Exists(fs, [args.destination])
    requires ResolveNamespace(args.namespace, c, fs) == Proceed(ns)
    requires Exists(fs, [args.destination, ns])
    ensures Run(args, c, fs) == Failed(DirectoryExists([args.destination, ns]), fs)
  {
  }

  /** The per-kind loop never fails for the reason the catalog query does. */
  lemma {:induction false} LoopNeverFailsOnCatalog(c: Cluster, nsPath: Path, kinds: seq<string>, st: Progress)
    ensures ProcessKinds(c, nsPath, kinds, st).Abort? ==>
      ProcessKinds(c, nsPath, kinds, st).failure != ApiResourcesFailed
    decreases |kinds|
  {
    if |kinds| > 0 {
      var ticked := st.(ticks := st.ticks + 1);
      if !Live(c, kinds[0]) {
        LoopNeverFailsOnCatalog(c, nsPath, kinds[1..], ticked);
      } else if ExportKind(st.fs, c, nsPath, kinds[0]).Proceed? {
        var fs' := ExportKind(st.fs, c, nsPath, kinds[0]).value;
        LoopNeverFailsOnCatalog(c, nsPath, kinds[1..],
          Progress(fs', st.active + [kinds[0]], st.activeCount + 1, ticked.ticks));
      }
    }
  }

  /** The order of the steps: when the catalog query fails, the root, the
      deduplicated `docker_images.txt` and an empty `active_resources.txt`
      are already on disk, and are left there. */
  lemma CatalogFailureComesAfterImages(args: Args, c: Cluster, fs: Fs)
    requires Run(args, c, fs).Failed? && Run(args, c, fs).failure == ApiResourcesFailed
    ensures ResolveNamespace(args.namespace, c, fs).Proceed?
    ensures var fs' := Run(args, c, fs).fs;
      var ns := ResolveNamespace(args.namespace, c, fs).value;
      var root := [args.destination, ns];
      && c.apiResources(ns).Err?
      && !Exists(fs, root) && root in fs'.dirs
      && LinesOf(fs', root + [ImagesFile]) == Distinct(ImagesOf(c, ns, WorkloadKinds))
      && root + [ActiveFile] in fs'.files && LinesOf(fs', root + [ActiveFile]) == []
  {
    if Prepare(args, c, fs).Proceed? {
      var prepared := Prepare(args, c, fs).value;
      var root := [args.destination, prepared.0];
      assert root + [ImagesFile] != root + [ActiveFile] by {
        assert (root + [ImagesFile])[2][0] == 'd' && (root + [ActiveFile])[2][0] == 'a';
      }
      if GetAPIResources(c, prepared.0, prepared.1).Proceed? {
        LoopNeverFailsOnCatalog(c, root, GetAPIResources(c, prepared.0, prepared.1).value,
                                Progress(prepared.1, [], 0, 0));
      }
    }
  }

  /** A completed run never met a live kind twice in the catalog: a catalog
      that lists a live kind twice makes the second `create_directory` fail. */
  lemma LiveKindListedOnce(args: Args, c: Cluster, fs: Fs, kind: string)
    requires Run(args, c, fs).Completed?
    requires Live(c, kind)
    ensures multiset(Fields(c.apiResources(Run(args, c, fs).summary.namespace).stdout))[kind] <= 1
  {
    RunCompletedCounts(args, c, fs);
    var catalog := Fields(c.apiResources(Run(args, c, fs).summary.namespace).stdout);
    LiveKindsCount(c, catalog, kind);
    NoDuplicatesCount(LiveKinds(c, catalog), kind);
  }

  /** A live kind whose directory exists already stops the loop when it
      comes up, if nothing has stopped it before. */
  lemma {:induction false} ExistingLiveKindAborts(c: Cluster, nsPath: Path, kinds: seq<string>, st: Progress, kind: string)
    requires Live(c, kind) && kind in kinds
    requires Exists(st.fs, nsPath + [kind])
    ensures ProcessKinds(c, nsPath, kinds, st).Abort?
    decreases |kinds|
  {
    var ticked := st.(ticks := st.ticks + 1);
    if kinds[0] != kind {
      assert kind in kinds[1..] by {
        assert kinds == [kinds[0]] + kinds[1..];
      }
      if !Live(c, kinds[0]) {
        ExistingLiveKindAborts(c, nsPath, kinds[1..], ticked, kind);
      } else if ExportKind(st.fs, c, nsPath, kinds[0]).Proceed? {
        var fs' := ExportKind(st.fs, c, nsPath, kinds[0]).value;
        ExportKindEffect(st.fs, c, nsPath, kinds[0]);
        ExistingLiveKindAborts(c, nsPath, kinds[1..],
          Progress(fs', st.active + [kinds[0]], st.activeCount + 1, ticked.ticks), kind);
      }
    }
  }

  /** A catalog that lists a live kind twice stops the per-kind loop: the
      second `create_directory` for it finds the directory the first one
      made. */
  lemma {:induction false} RepeatedLiveKindAborts(c: Cluster, nsPath: Path, kinds: seq<string>, st: Progress, kind: string)
    requires Live(c, kind) && multiset(kinds)[kind] >= 2
    ensures ProcessKinds(c, nsPath, kinds, st).Abort?
    decreases |kinds|
  {
    var ticked := st.(ticks := st.ticks + 1);
    assert kinds == [kinds[0]] + kinds[1..];
    var rest := kinds[1..];
    if kinds[0] == kind {
      assert multiset(rest)[kind] >= 1;
      if ExportKind(st.fs, c, nsPath, kind).Proceed? {
        var fs' := ExportKind(st.fs, c, nsPath, kind).value;
        ExportKindEffect(st.fs, c, nsPath, kind);
        ExistingLiveKindAborts(c, nsPath, rest,
          Progress(fs', st.active + [kind], st.activeCount + 1, ticked.ticks), kind);
      }
    } else {
      assert multiset(rest)[kind] >= 2;
      if !Live(c, kinds[0]) {
        RepeatedLiveKindAborts(c, nsPath, rest, ticked, kind);
      } else if ExportKind(st.fs, c, nsPath, kinds[0]).Proceed? {
        var fs' := ExportKind(st.fs, c, nsPath, kinds[0]).value;
        RepeatedLiveKindAborts(c, nsPath, rest,
          Progress(fs', st.active + [kinds[0]], st.activeCount + 1, ticked.ticks), kind);
      }
    }
  }

  /** The run-level form: once the steps before the catalog query succeed,
      a catalog that lists a live kind twice makes the run fail. */
  lemma RepeatedLiveKindIsFatal(args: Args, c: Cluster, fs: Fs, kind: string)
    requires args.destination != "" && Exists(fs, [args.destination])
    requires Prepare(args, c, fs).Proceed?
    requires c.apiResources(Prepare(args, c, fs).value.0).Ok?
    requires Live(c, kind)
    requires multiset(Fields(c.apiResources(Prepare(args, c, fs).value.0).stdout))[kind] >= 2
    ensures Run(args, c, fs).Failed?
  {
    var prepared := Prepare(args, c, fs).value;
    var catalog := GetAPIResources(c, prepared.0, prepared.1).value;
    RepeatedLiveKindAborts(c, [args.destination, prepared.0], catalog, Progress(prepared.1, [], 0, 0), kind);
  }

  /** A kind whose probe says it has no objects only ticks the progress bar:
      a catalog of such kinds leaves the disk and the accumulator alone. */
  lemma {:induction false} DeadKindsOnlyTick(c: Cluster, nsPath: Path, kinds: seq<string>, st: Progress)
    requires forall k :: k in kinds ==> !Live(c, k)
    ensures ProcessKinds(c, nsPath, kinds, st) == Proceed(st.(ticks := st.ticks + |kinds|))
    decreases |kinds|
  {
    if |kinds| > 0 {
      assert kinds[0] in kinds;
      assert forall k :: k in kinds[1..] ==> k in kinds;
      DeadKindsOnlyTick(c, nsPath, kinds[1..], st.(ticks := st.ticks + 1));
    }
  }

  /** The fatal exits of exporting `kind`: the tracking file, its directory
      or its manifest. */
  predicate ExportFailure(nsPath: Path, kind: string, f: Failure) {
    || f == FileWriteFailed(nsPath + [ActiveFile])
    || f == DirectoryExists(nsPath + [kind])
    || f == DirectoryCreateFailed(nsPath + [kind])
    || f == ResourceGetFailed(kind)
    || f == FileWriteFailed(ManifestPath(nsPath, kind))
  }

  lemma ExportKindFailures(fs: Fs, c: Cluster, nsPath: Path, kind: string)
    ensures ExportKind(fs, c, nsPath, kind).Abort? ==>
      ExportFailure(nsPath, kind, ExportKind(fs, c, nsPath, kind).failure)
  {
    assert nsPath + [kind] + [ManifestName(kind)] == ManifestPath(nsPath, kind);
  }

  /** A probe never stops the loop: when the loop stops, it stops while
      exporting a live kind, for one of that export's reasons. */
  lemma {:induction false} ProbeFailuresAreNotFatal(c: Cluster, nsPath: Path, kinds: seq<string>, st: Progress)
    ensures var r := ProcessKinds(c, nsPath, kinds, st);
      r.Abort? ==> exists i :: 0 <= i < |kinds| && Live(c, kinds[i]) && ExportFailure(nsPath, kinds[i], r.failure)
    decreases |kinds|
  {
    if |kinds| > 0 {
      var kind := kinds[0];
      var ticked := st.(ticks := st.ticks + 1);
      var r := ProcessKinds(c, nsPath, kinds, st);
      if !Live(c, kind) {
        assert r == ProcessKinds(c, nsPath, kinds[1..], ticked);
        ProbeFailuresAreNotFatal(c, nsPath, kinds[1..], ticked);
        if r.Abort? {
          var i :| 0 <= i < |kinds[1..]| && Live(c, kinds[1..][i]) && ExportFailure(nsPath, kinds[1..][i], r.failure);
          assert kinds[1..][i] == kinds[i + 1];
        }
      } else if ExportKind(st.fs, c, nsPath, kind).Abort? {
        ExportKindFailures(st.fs, c, nsPath, kind);
        assert Live(c, kinds[0]) && ExportFailure(nsPath, kinds[0], r.failure);
      } else {
        var fs' := ExportKind(st.fs, c, nsPath, kind).value;
        var next := Progress(fs', st.active + [kind], st.activeCount + 1, ticked.ticks);
        assert r == ProcessKinds(c, nsPath, kinds[1..], next);
        ProbeFailuresAreNotFatal(c, nsPath, kinds[1..], next);
        if r.Abort? {
          var i :| 0 <= i < |kinds[1..]| && Live(c, kinds[1..][i]) && ExportFailure(nsPath, kinds[1..][i], r.failure);
          assert kinds[1..][i] == kinds[i + 1];
        }
      }
    }
  }

  /** The per-kind loop only adds: whether it completes or stops, every
      directory and file it found is still there. */
  lemma {:induction false} ProcessKindsGrows(c: Cluster, nsPath: Path, kinds: seq<string>, st: Progress)
    ensures var r := ProcessKinds(c, nsPath, kinds, st);
      && (r.Abort? ==> Grows(st.fs, r.fs))
      && (r.Proceed? ==> Grows(st.fs, r.value.fs))
    decreases |kinds|
  {
    if |kinds| > 0 {
      var kind := kinds[0];
      var ticked := st.(ticks := st.ticks + 1);
      if !Live(c, kind) {
        ProcessKindsGrows(c, nsPath, kinds[1..], ticked);
      } else if ExportKind(st.fs, c, nsPath, kind).Proceed? {
        var fs' := ExportKind(st.fs, c, nsPath, kind).value;
        ExportKindEffect(st.fs, c, nsPath, kind);
        ProcessKindsGrows(c, nsPath, kinds[1..], Progress(fs', st.active + [kind], st.activeCount + 1, ticked.ticks));
      }
    }
  }

  /** A run, however it ends, removes no directory or file that was on disk
      before it: a failed run leaves the partial snapshot next to everything
      that was already there. */
  lemma RunOnlyAdds(args: Args, c: Cluster, fs: Fs)
    ensures Grows(fs, Run(args, c, fs).fs)
  {
    if args.destination != "" && Stat(fs, [args.destination]) == Found && Prepare(args, c, fs).Proceed? {
      var (ns, fs2, _) := Prepare(args, c, fs).value;
      if GetAPIResources(c, ns, fs2).Proceed? {
        ProcessKindsGrows(c, [args.destination, ns], GetAPIResources(c, ns, fs2).value, Progress(fs2, [], 0, 0));
      }
    }
  }
}
