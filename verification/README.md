# Namespace snapshot tool, modelled in Dafny

The tool (`main.go`) takes a snapshot of one Kubernetes namespace with
`kubectl`. Given `--destination` and, optionally, `--namespace`, it:

1. resolves the namespace. The flag wins; otherwise it uses the current
   context's default namespace, which must be obtainable and non-empty.
2. creates `<destination>/<namespace>`. It is fatal if the directory exists.
3. runs, for each of seven workload kinds, the jsonpath query
   `.items[*].spec.template.spec.containers[*].image` and the same query for
   `initContainers` (main.go:130). That path names images only for kinds
   with a pod template one level down. For `pods`, whose containers are at
   `.spec.containers`, and for `cronjobs`, whose template is under
   `.spec.jobTemplate`, it names none. "not found" failures are skipped
   silently; other failures are reported and the run goes on. The step
   writes the distinct non-empty tokens it printed, in first-seen order, to
   `docker_images.txt`.
4. creates `active_resources.txt`.
5. lists the namespaced kinds (`kubectl api-resources`).
6. probes each kind with `kubectl get <kind> --no-headers`. A live kind is
   appended to `active_resources.txt`, gets its own directory, and has its
   `kubectl get <kind> -o yaml` output written to
   `<kind>/manifest_<kind>.yaml`.

Every fatal error ends the process and leaves the partial output on disk.

## How it is modelled

- Each `kubectl` command line is an oracle field of `Kubectl.Cluster`. Each
  call's outcome is `Ok(stdout)` or `Err(stdout, stderr)`.
- The operating system is `FileSystem.Fs`. It holds:
  - a set of directories;
  - a map from paths to file contents;
  - the paths on which `MkdirAll`, `Create` or a write fails.
- Every `error_handler` call becomes `Fatal.Res.Abort(failure, fs)`. The
  `fs` is the state left on disk at that moment. The destination check
  becomes a `Failed(DestinationMissing(..), fs)` exit directly in
  `Snapshot.Run`.
- `main` is `Snapshot.Run`. It returns `Usage`, `Failed(failure, fs)` or
  `Completed(summary, fs)`.
- The global `active_resources` slice becomes the `Progress` accumulator
  threaded through `Snapshot.ProcessKinds`.
- `strings.Fields` and `unicode.IsSpace` are modelled exactly in `Text`.
- `removeDuplicatesAndEmpty` is in two parts:
  - its loop is `Dedup.RemoveDuplicatesAndEmpty`, whose reference
    definition is `Dedup.Distinct`;
  - its file is `Images.WriteImages`.

Where the code does something a reader might not expect, the model
follows the code:

- `active_resources.txt` is created *before* the kind catalog is listed
  (main.go:207-213). A failed catalog query therefore leaves an empty
  tracking file behind (`SnapshotProperties.CatalogFailureComesAfterImages`).
- The probe and the manifest export do not pass `-n <namespace>`
  (main.go:25, main.go:66). They see the namespace of the current context,
  so their oracles are keyed by kind alone. The image query and the
  catalog query do pass the namespace.
- `create_directory` takes every `os.Stat` result other than "does not
  exist" as "Directory already exists". That includes the error for a path
  under a regular file (main.go:54-61).
- A manifest holds whatever `kubectl get -o yaml` printed, possibly
  nothing. The code never checks that it is non-empty.

## Model

| member | source | states |
|---|---|---|
| Text.IsSpace | main.go:153 | definition: the characters `unicode.IsSpace` accepts (the Latin-1 spaces and the Unicode `White_Space` characters), which is what `strings.Fields` splits on |
| Text.Fields | main.go:46 | definition of `strings.Fields`: the maximal runs of non-space characters, in order; its properties are the four lemmas below |
| Text.ContainsIsInfix | main.go:145 | the recursive `Contains` used for the "not found" test holds exactly when `sub` occurs in `s` at some offset |
| Text.FieldsAreTokens | main.go:46 | every field `strings.Fields` returns is non-empty and free of whitespace |
| Text.FieldsKeepNonSpace | main.go:153 | the fields, concatenated, are the input with its whitespace deleted: splitting loses nothing else |
| Text.FieldsSplitAtSpace | main.go:46 | fields never run across whitespace: the fields of `a`, a whitespace character, then `b` are the fields of `a` followed by those of `b` |
| Text.FieldsOfJoinSpaced | main.go:46 | splitting a space-joined list of tokens gives that list back |
| Dedup.Distinct | main.go:96-109 | definition: the reference list the deduplicating loop writes, built one input at a time, keeping a token when it is non-empty and not yet kept; the lemmas below characterise it |
| Dedup.RemoveDuplicatesAndEmpty | main.go:84-113 | the loop writes the reference list `Distinct(slice)`, and `count` is its length; that list has no empty string and no duplicate, holds exactly the non-empty inputs, and keeps first-seen order |
| Dedup.DistinctCharacterization | main.go:96-109 | the deduplicated list holds exactly the distinct non-empty inputs, once each, ordered by first occurrence |
| Dedup.DistinctUnique | main.go:96-109 | any duplicate-free list with those members in first-seen order equals the deduplicated list, so the characterisation determines the output |
| Dedup.DistinctOfDeduplicated | main.go:96-109 | an input that already has no empty string and no duplicate passes through unchanged |
| Dedup.DistinctIdempotent | main.go:96-109 | deduplicating twice gives the same list as deduplicating once |
| Dedup.NoDuplicatesCount | main.go:100-102 | a duplicate-free list holds each value at most once (multiset count ≤ 1) |
| Kubectl.CheckResource | main.go:24-35 | definition: a probe says "live" exactly when `kubectl get <kind> --no-headers` succeeds with non-empty output; a failed probe is "not live" whatever it printed |
| Kubectl.LiveKindsCount | main.go:221-226 | the live kinds collected from a catalog keep every live kind as often as it is listed and drop every other kind |
| Kubectl.LiveKindsMembers | main.go:221-226 | a kind is collected iff it is in the catalog and live |
| Kubectl.LiveKindsLength | main.go:214-224 | there are never more live kinds than catalog entries |
| Images.Contribution | main.go:142-155 | definition: a kind whose query failed with "not found" adds nothing; any other kind adds the fields of whatever it printed, even when the query failed |
| Images.ContributionIsOutput | main.go:142-155 | a kind's contribution is all whitespace-free tokens which, written back to back, are its output minus whitespace, or nothing when the kind was not found |
| Images.ImagesOf | main.go:132-156 | definition: the contributions of the queried kinds, concatenated in query order |
| Images.ReportedOf | main.go:143-150 | definition: the kinds whose query failed without "not found", in query order |
| Images.ImagesOfStep | main.go:132-156 | one more queried kind appends its contribution, and its report if any, after those of the kinds before it |
| Images.GrabImages | main.go:115-157 | the loop over the seven workload kinds collects the contributions of the reference `ImagesOf`, all whitespace-free tokens; it reports a kind iff that kind's query failed for a reason other than "not found" |
| Images.ImagesOfAppend | main.go:132-156 | kinds contribute images, and reports, in the order they are queried |
| Images.ImagesOfAreTokens | main.go:152-155 | every collected image is a non-empty whitespace-free token |
| Images.ImagesOfMembers | main.go:142-155 | a token is collected iff some queried kind whose query did not fail with "not found" printed it |
| Images.ReportedOfMembers | main.go:143-150 | a kind is reported iff it is queried and its query failed without "not found" |
| Images.NotFoundIsSkipped | main.go:143-147 | a kind whose query fails with "not found" contributes nothing and is not reported; the kinds after it are still queried |
| Images.WriteLines | main.go:104-107 | writing lines to an open file appends them all, or fails fatally on the first write leaving the state as it was |
| Images.WriteImages | main.go:89-111 | the images file is created and holds exactly the deduplicated images; the printed count is its length; it fails only when creating or writing the file fails |
| Images.ImagesFileIsDeduplicated | main.go:84-113 | `docker_images.txt` holds the distinct non-empty inputs, once each, in first-seen order, and the count equals its number of lines |
| Images.ImagesFileIdempotent | main.go:84-113 | feeding an already deduplicated list through the step writes that list unchanged |
| FileSystem.Stat | main.go:54 | in the model, `Stat` reports a path found exactly when it exists, and reports an error that is not "does not exist" only for a path under a regular file |
| FileSystem.MkdirAll | main.go:55 | on a path that `Stat` reports as absent it succeeds exactly when the environment allows it; success adds that one directory, which `Stat` then finds, and touches no file |
| FileSystem.Create | main.go:91 | on success the file exists and is empty, no directory changes and every other file keeps its content |
| FileSystem.WriteString | main.go:104 | succeeds exactly when the environment allows writing the file; it appends one line and leaves every other file and every directory as it was |
| FileSystem.WriteFile | main.go:78 | on success the file exists and holds exactly the bytes given, no directory changes and every other file keeps its content |
| Snapshot.ResolveNamespace | main.go:181-198 | the flag wins; else the context's namespace is used iff its query succeeded with non-empty output; otherwise it is fatal, with the failure distinguishing a failed query from an empty one, and nothing is written |
| Snapshot.CreateDirectory | main.go:49-62 | fatal "already exists" when the path exists, and also when it is absent but lies under a regular file; succeeds iff the path is absent, not under a file and creatable, adding exactly that directory |
| Snapshot.CreateDirectoryTwiceFails | main.go:49-62 | creating the same directory a second time is fatal with "already exists" |
| Snapshot.GetResource | main.go:64-82 | a failed `get -o yaml` is fatal; otherwise its output is written verbatim to `manifest_<kind>.yaml`, and that write fails exactly when the path is a directory, under a file, or unwritable |
| Snapshot.GetAPIResources | main.go:37-47 | fatal iff the catalog query fails; otherwise the kinds are whitespace-free tokens that together spell the output minus its whitespace |
| Snapshot.Prepare | main.go:181-211 | the steps before the catalog query succeed exactly when the namespace resolves, the root is absent, not under a file and creatable, `docker_images.txt` can be created and, if any image is to be written, written, and `active_resources.txt` can be created; every failure is some other step's, not the catalog's, and removes nothing; a namespace failure is passed on with nothing written; on success the disk gains exactly the root, the deduplicated images file and an empty tracking file |
| Snapshot.ExportKind | main.go:223-238 | exporting a live kind succeeds exactly when the tracking file is writable, the kind's directory is absent, not under a file and creatable, `get -o yaml` succeeds and the manifest path is writable; then the kind is appended to the tracking file and gets a new directory and its manifest, and nothing else changes; an unwritable tracking file is fatal before anything changes, an existing directory is fatal with "already exists", and a failure removes nothing |
| Snapshot.ProcessKinds | main.go:221-239 | definition of the per-kind loop: each kind ticks the progress bar, and a live kind is exported, any export failure ending the run; its properties are the `SnapshotProperties.ProcessKinds…` lemmas |
| Snapshot.Pipeline | main.go:200-239 | definition: the steps before the catalog query, the catalog query, then the per-kind loop, the first fatal step ending the chain; `SnapshotProperties.PipelineStages` states it |
| Snapshot.Run | main.go:161-245 | definition of `main`: no destination gives the usage exit, a missing destination is fatal, otherwise the pipeline runs; the `SnapshotProperties.Run…` lemmas state what it guarantees |
| SnapshotProperties.ProcessKindsCounts | main.go:217-239 | the accumulator gains exactly the live kinds in catalog order; the active count is its length; the progress bar ticks once per catalog entry |
| SnapshotProperties.ProcessKindsLayout | main.go:221-239 | exactly the live kinds get directories, all new; the only files added are their manifests; no live kind appears twice |
| SnapshotProperties.ExportKindEffect | main.go:226-237 | one export adds one directory and one manifest, appends one line to the tracking file, and leaves every other file as it was |
| SnapshotProperties.ProcessKindsActiveFile | main.go:221-232 | `active_resources.txt` gains exactly the live kinds, in catalog order |
| SnapshotProperties.ProcessKindsManifests | main.go:233-238 | each live kind's manifest holds its `get -o yaml` output; every other file except the tracking file is untouched |
| SnapshotProperties.DeadKindsOnlyTick | main.go:221-239 | a catalog whose kinds all probe as not live leaves the disk, the accumulator and the count unchanged, and ticks the progress bar once per kind |
| SnapshotProperties.ProbeFailuresAreNotFatal | main.go:24-35 | a failed probe never stops the loop: when the loop stops, it stops exporting a live kind, for one of that export's five reasons |
| SnapshotProperties.ProcessKindsGrows | main.go:221-239 | the per-kind loop, whether it completes or stops, keeps every directory and file it found |
| SnapshotProperties.RunOnlyAdds | main.go:161-245 | a run, however it ends, removes no directory or file that was on disk before it |
| SnapshotProperties.PipelineStages | main.go:161-245 | a completed run went through namespace resolution, a fresh root, the images file and an empty tracking file before the per-kind loop, in that order |
| SnapshotProperties.RunCompletedCounts | main.go:161-245 | a completed run had an existing destination and a fresh root; its namespace came from the flag or the context; the active list is the live kinds of the catalog, none twice, and its count is at most the total, which equals the ticks |
| SnapshotProperties.RunCompletedFiles | main.go:204-232 | after a completed run the tracking file lists exactly the active kinds, the images file holds the deduplicated images, and the image count is its number of lines |
| SnapshotProperties.RunCompletedManifests | main.go:233-238 | after a completed run each active kind's manifest holds its `get -o yaml` output |
| SnapshotProperties.RunCompletedLayout | main.go:200-245 | a completed run adds exactly the root and the active kinds' directories, and the only files it adds are the images file, the tracking file and the active kinds' manifests |
| SnapshotProperties.SecondRunFails | main.go:200-202 | rerunning against the output of a completed run fails with "already exists" on the root and writes nothing |
| SnapshotProperties.EarlyExitsWriteNothing | main.go:171-198 | no destination gives the usage exit; a missing destination, a failed namespace query or an empty default namespace is fatal with the matching failure, before anything is written |
| SnapshotProperties.ExistingRootIsFatal | main.go:200-202 | an existing `<destination>/<namespace>` is fatal before anything is written |
| SnapshotProperties.LoopNeverFailsOnCatalog | main.go:221-239 | no failure inside the per-kind loop is a catalog failure |
| SnapshotProperties.CatalogFailureComesAfterImages | main.go:200-213 | when the catalog query fails, the root, the deduplicated images file and an empty `active_resources.txt` are already on disk |
| SnapshotProperties.LiveKindListedOnce | main.go:233-235 | a completed run never saw a live kind twice in the catalog, since the second directory creation would be fatal |
| SnapshotProperties.ExistingLiveKindAborts | main.go:233-235 | a live kind whose directory already exists stops the per-kind loop fatally when it comes up |
| SnapshotProperties.RepeatedLiveKindAborts | main.go:221-238 | a catalog listing a live kind twice stops the per-kind loop fatally |
| SnapshotProperties.RepeatedLiveKindIsFatal | main.go:213-238 | once the steps before the catalog query succeed, a catalog listing a live kind twice makes the run fail |
| Scenario.SmallClusterRun | main.go:161-245 | catalog `pods configmaps` with only pods live and no images anywhere: the run completes with `1/2`; pods gets its directory and manifest and is the only tracking line; no `configmaps` directory is created |
| Scenario.SmallClusterSetup | main.go:181-211 | in that cluster the namespace comes from the context, and the root, an empty images file and an empty tracking file are created |
| Scenario.SmallClusterExport | main.go:226-237 | in that cluster exporting pods appends it to the tracking file, creates `pods/` and writes its manifest |
| Scenario.SmallClusterLoop | main.go:221-239 | in that cluster the loop exports pods, skips configmaps and ticks twice |

## Left out

- Process execution: `exec.Command`, `cmd.Run` and the `bytes.Buffer` plumbing are replaced by the outcome oracles of `Kubectl.Cluster`. Exit codes and the error values in diagnostics are not modelled.
- All console output is left out: `fmt` messages, the progress bar's drawing and the usage text. `Summary` keeps the numbers and the list of reported kinds that are printed.
- Flag parsing (`flag.String`, `flag.Parse`) is left out; `Snapshot.Args` holds the parsed values.
- `filepath.FromSlash` and `filepath.Join` path cleaning are not modelled. A path is a list of components, and the destination and the namespace are each one component, even when they contain separators. A namespace with a separator makes `MkdirAll` create the intermediate directories too (main.go:55, main.go:201); the model does not.
- `os.MkdirAll` is modelled as creating only the named directory. That is exact at both call sites when the namespace and the kind contain no separator, since the parent then exists already.
- Snapshot.CreateDirectory, Snapshot.Prepare, SnapshotProperties.RunCompletedLayout: these hold for a namespace without a path separator. For a namespace `a/b`, the code creates `<destination>/a` as well, and a regular file at `<destination>/a` makes `os.Stat` fail so that the run ends with "Directory already exists" (main.go:54, main.go:59-60); the model keeps `a/b` as one component, creates only it, and lets such a run go on.
- Permissions, disk space and other environment refusals are not modelled as causes. Those of `MkdirAll`, `Create` and the writes are fault sets fixed per path, not per call; `Stat` has none (see below).
- Mode bits (0755, 0644) are not modelled.
- Byte contents are not modelled: text files are lists of lines and a manifest is the command's output string.
- The deferred `Close` of `active_resources.txt` and the unclosed `docker_images.txt` are left out, as are buffering and flush failures.
- The exit status is not modelled as a number. `Usage` is status 0, `Failed` is status 1 and `Completed` is status 0.
- `cmd.Dir` for the manifest command is not modelled. Any effect it has on what `kubectl` prints, for instance through a relative kubeconfig path, is absorbed by the `getYaml` oracle, which is keyed by kind; within a run the directory is a function of the kind.
- The jsonpath query and the YAML content are not interpreted. Whatever `kubectl` prints is taken as given. In particular the model does not know that the query's path (main.go:130) names no images for `pods` and `cronjobs`; their contribution is whatever the oracle prints.
- SnapshotProperties.RepeatedLiveKindAborts, SnapshotProperties.RepeatedLiveKindIsFatal, SnapshotProperties.LiveKindListedOnce: the cluster is taken as fixed for the whole run, so each `kubectl` command line has one outcome. The code probes a kind the catalog lists twice a second time (main.go:221-223), and that second probe could disagree with the first. The model cannot tell the two probes apart, so these three lemmas hold only for a cluster that does not change during the run.
- FileSystem.Stat: `os.Stat` refusals other than the error for a path under a regular file are not modelled. A permission refusal or a symlink loop would make `create_directory` report "Directory already exists" (main.go:54, main.go:59-60) and `main` report an existing destination as missing (main.go:176-178); `Faults` has no set for them.
