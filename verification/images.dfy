/** `grab_images` and the file half of `removeDuplicatesAndEmpty` (main.go):
    run the container-image and init-container-image jsonpath query for each
    workload kind, tolerate every failure of those queries, and write the
    distinct tokens printed to `docker_images.txt`. */
module Images {
  import opened Text
  import opened Dedup
  import opened Kubectl
  import opened FileSystem
  import opened Fatal

  /** The workload kinds queried, in the order they are queried. */
  const WorkloadKinds: seq<string> :=
    ["deployments", "statefulsets", "daemonsets", "cronjobs", "jobs", "pods", "replicasets"]

  const ImagesFile: string := "docker_images.txt"

  /** The query failed because the kind is unknown: skipped without a word. */
  predicate KindNotFound(o: Outcome) {
    o.Err? && Contains(o.stderr, "not found")
  }

  /** The query failed for another reason: reported, and execution continues. */
  predicate Reported(o: Outcome) {
    o.Err? && !KindNotFound(o)
  }

  /** The image tokens one kind's query adds: none when the kind is not
      found, otherwise the fields of whatever it printed, even when the query
      failed. */
  function Contribution(o: Outcome): seq<string> {
    if KindNotFound(o) || |o.stdout| == 0 then [] else Fields(o.stdout)
  }

  /** A kind that is not "not found" contributes the tokens of its output and
      nothing else: written back to back they are that output minus its
      whitespace, even when the query failed. */
  lemma ContributionIsOutput(o: Outcome)
    ensures AllTokens(Contribution(o))
    ensures Flatten(Contribution(o)) == if KindNotFound(o) then [] else RemoveSpaces(o.stdout)
  {
    if !KindNotFound(o) && |o.stdout| > 0 {
      FieldsAreTokens(o.stdout);
      FieldsKeepNonSpace(o.stdout);
    }
  }

  /** Reference definition: the contributions of `kinds`, in order. */
  function ImagesOf(c: Cluster, ns: string, kinds: seq<string>): seq<string> {
    if |kinds| == 0 then []
    else Contribution(c.getImages(kinds[0], ns)) + ImagesOf(c, ns, kinds[1..])
  }

  /** Reference definition: the kinds whose failure is reported, in order. */
  function ReportedOf(c: Cluster, ns: string, kinds: seq<string>): seq<string> {
    if |kinds| == 0 then []
    else (if Reported(c.getImages(kinds[0], ns)) then [kinds[0]] else []) + ReportedOf(c, ns, kinds[1..])
  }

  /** The loop of `grab_images` up to its call of `removeDuplicatesAndEmpty`:
      `allImages` is what it collects, `reported` the kinds it prints an
      error for. Nothing in it can stop the run. */
  method GrabImages(c: Cluster, ns: string) returns (allImages: seq<string>, reported: seq<string>)
    ensures allImages == ImagesOf(c, ns, WorkloadKinds)
    ensures reported == ReportedOf(c, ns, WorkloadKinds)
    ensures AllTokens(allImages)
    ensures forall kind :: kind in reported <==> kind in WorkloadKinds && Reported(c.getImages(kind, ns))
  {
    allImages := [];
    reported := [];
    for i := 0 to |WorkloadKinds|
      invariant allImages == ImagesOf(c, ns, WorkloadKinds[..i])
      invariant reported == ReportedOf(c, ns, WorkloadKinds[..i])
    {
      var resource := WorkloadKinds[i];
      var o := c.getImages(resource, ns);
      ImagesOfStep(c, ns, WorkloadKinds, i);
      if o.Err? && Contains(o.stderr, "not found") {
        continue;
      }
      if o.Err? {
        reported := reported + [resource];
      }
      if |o.stdout| > 0 {
        allImages := allImages + Fields(o.stdout);
      }
    }
    assert WorkloadKinds[..|WorkloadKinds|] == WorkloadKinds;
    ImagesOfAreTokens(c, ns, WorkloadKinds);
    ReportedOfMembers(c, ns, WorkloadKinds);
  }

  /** One more kind adds its contribution, and its report, at the end. */
  lemma ImagesOfStep(c: Cluster, ns: string, kinds: seq<string>, i: nat)
    requires i < |kinds|
    ensures ImagesOf(c, ns, kinds[..i + 1]) == ImagesOf(c, ns, kinds[..i]) + Contribution(c.getImages(kinds[i], ns))
    ensures ReportedOf(c, ns, kinds[..i + 1]) ==
      ReportedOf(c, ns, kinds[..i]) + (if Reported(c.getImages(kinds[i], ns)) then [kinds[i]] else [])
  {
    ImagesOfAppend(c, ns, kinds[..i], [kinds[i]]);
    assert kinds[..i + 1] == kinds[..i] + [kinds[i]];
    assert [kinds[i]][1..] == [];
  }

  /** The queries contribute in the order of the kinds: images of an earlier
      kind come before those of a later one. */
  lemma {:induction false} ImagesOfAppend(c: Cluster, ns: string, a: seq<string>, b: seq<string>)
    ensures ImagesOf(c, ns, a + b) == ImagesOf(c, ns, a) + ImagesOf(c, ns, b)
    ensures ReportedOf(c, ns, a + b) == ReportedOf(c, ns, a) + ReportedOf(c, ns, b)
    decreases |a|
  {
    if |a| == 0 {
      assert a + b == b;
    } else {
      assert (a + b)[0] == a[0];
      assert (a + b)[1..] == a[1..] + b;
      ImagesOfAppend(c, ns, a[1..], b);
    }
  }

  /** Every collected image is a non-empty, whitespace-free token. */
  lemma {:induction false} ImagesOfAreTokens(c: Cluster, ns: string, kinds: seq<string>)
    ensures AllTokens(ImagesOf(c, ns, kinds))
    decreases |kinds|
  {
    if |kinds| > 0 {
      ContributionIsOutput(c.getImages(kinds[0], ns));
      ImagesOfAreTokens(c, ns, kinds[1..]);
    }
  }

  /** A token is collected exactly when some kind that is not "not found"
      printed it. */
  lemma {:induction false} ImagesOfMembers(c: Cluster, ns: string, kinds: seq<string>, t: string)
    ensures t in ImagesOf(c, ns, kinds) <==>
              exists i :: 0 <= i < |kinds| && t in Contribution(c.getImages(kinds[i], ns))
    decreases |kinds|
  {
    if |kinds| > 0 {
      ImagesOfMembers(c, ns, kinds[1..], t);
      if t in ImagesOf(c, ns, kinds[1..]) {
        var i :| 0 <= i < |kinds[1..]| && t in Contribution(c.getImages(kinds[1..][i], ns));
        assert t in Contribution(c.getImages(kinds[i + 1], ns));
      }
      if exists i :: 0 <= i < |kinds| && t in Contribution(c.getImages(kinds[i], ns)) {
        var i :| 0 <= i < |kinds| && t in Contribution(c.getImages(kinds[i], ns));
        if i > 0 {
          assert kinds[1..][i - 1] == kinds[i];
        }
      }
    }
  }

  /** A kind is reported exactly when it is queried and its query failed for
      a reason other than "not found". */
  lemma {:induction false} ReportedOfMembers(c: Cluster, ns: string, kinds: seq<string>)
    ensures forall kind :: kind in ReportedOf(c, ns, kinds) <==> kind in kinds && Reported(c.getImages(kind, ns))
    decreases |kinds|
  {
    if |kinds| > 0 {
      ReportedOfMembers(c, ns, kinds[1..]);
      assert kinds == [kinds[0]] + kinds[1..];
    }
  }

  /** A kind whose query fails with "not found" neither contributes images
      nor gets reported; the other six kinds are still queried. */
  lemma NotFoundIsSkipped(c: Cluster, ns: string, i: nat)
    requires i < |WorkloadKinds|
    requires KindNotFound(c.getImages(WorkloadKinds[i], ns))
    ensures ImagesOf(c, ns, WorkloadKinds) ==
              ImagesOf(c, ns, WorkloadKinds[..i]) + ImagesOf(c, ns, WorkloadKinds[i + 1..])
    ensures WorkloadKinds[i] !in ReportedOf(c, ns, WorkloadKinds)
  {
    var a, b := WorkloadKinds[..i], WorkloadKinds[i + 1..];
    assert WorkloadKinds == a + ([WorkloadKinds[i]] + b);
    ImagesOfAppend(c, ns, a, [WorkloadKinds[i]] + b);
    assert ImagesOf(c, ns, [WorkloadKinds[i]] + b) == ImagesOf(c, ns, b) by {
      assert ([WorkloadKinds[i]] + b)[1..] == b;
    }
    ReportedOfMembers(c, ns, WorkloadKinds);
  }

  /** `WriteString` of each line in turn; the first failed write is fatal. */
  function WriteLines(fs: Fs, p: Path, lines: seq<string>): (r: Res<Fs>)
    ensures r.Proceed? <==> |lines| == 0 || p !in fs.faults.write
    ensures r.Proceed? && |lines| > 0 ==>
              r.value == fs.(files := fs.files[p := Lines(LinesOf(fs, p) + lines)])
    ensures |lines| == 0 ==> r == Proceed(fs)
    ensures r.Abort? ==> r == Abort(FileWriteFailed(p), fs)
    decreases |lines|
  {
    if |lines| == 0 then Proceed(fs)
    else
      var fs' :- Must(WriteString(fs, p, lines[0]), FileWriteFailed(p), fs);
      var r := WriteLines(fs', p, lines[1..]);
      assert r.Proceed? ==> r.value == fs.(files := fs.files[p := Lines(LinesOf(fs, p) + lines)]) by {
        if |lines| == 1 {
          assert lines == [lines[0]];
        } else {
          assert LinesOf(fs, p) + [lines[0]] + lines[1..] == LinesOf(fs, p) + lines;
          assert fs'.files[p := Lines(LinesOf(fs, p) + lines)] == fs.files[p := Lines(LinesOf(fs, p) + lines)];
        }
      }
      r
  }

  /** `removeDuplicatesAndEmpty` with its file: create `docker_images.txt`
      under `nsPath`, write the deduplicated images one per line, and return
      the count printed as "Total Docker Images in use". Only the file can
      make it fail. */
  function WriteImages(fs: Fs, nsPath: Path, slice: seq<string>): (r: Res<(Fs, nat)>)
    ensures var path := nsPath + [ImagesFile];
      r.Proceed? <==>
        && path !in fs.dirs && path !in fs.faults.create && !UnderFile(fs, path)
        && (Distinct(slice) == [] || path !in fs.faults.write)
    ensures var path := nsPath + [ImagesFile];
      r.Proceed? ==>
        && r.value.0 == fs.(files := fs.files[path := Lines(Distinct(slice))])
        && r.value.1 == |Distinct(slice)|
    ensures var path := nsPath + [ImagesFile];
      r.Abort? ==> r.failure == FileCreateFailed(path) || r.failure == FileWriteFailed(path)
  {
    var path := nsPath + [ImagesFile];
    var fs1 :- Must(Create(fs, path), FileCreateFailed(path), fs);
    var lines := Distinct(slice);
    var fs2 :- WriteLines(fs1, path, lines);
    assert LinesOf(fs1, path) == [];
    assert [] + lines == lines;
    assert fs1.files[path := Lines(lines)] == fs.files[path := Lines(lines)];
    Proceed((fs2, |lines|))
  }

  /** After a successful `removeDuplicatesAndEmpty`, `docker_images.txt` holds
      exactly the distinct non-empty inputs, once each, in first-seen order,
      and the reported count equals its number of lines. */
  lemma ImagesFileIsDeduplicated(fs: Fs, nsPath: Path, slice: seq<string>)
    requires WriteImages(fs, nsPath, slice).Proceed?
    ensures var (fs', count) := WriteImages(fs, nsPath, slice).value;
      var lines := LinesOf(fs', nsPath + [ImagesFile]);
      && NoEmpty(lines) && NoDuplicates(lines)
      && (forall x :: x in lines <==> x in slice && x != "")
      && FirstSeenOrder(lines, slice)
      && count == |lines|
  {
    DistinctCharacterization(slice);
  }

  /** Feeding an already deduplicated list through `removeDuplicatesAndEmpty`
      writes that list unchanged. */
  lemma ImagesFileIdempotent(fs: Fs, nsPath: Path, slice: seq<string>)
    requires NoEmpty(slice) && NoDuplicates(slice)
    requires WriteImages(fs, nsPath, slice).Proceed?
    ensures LinesOf(WriteImages(fs, nsPath, slice).value.0, nsPath + [ImagesFile]) == slice
  {
    DistinctOfDeduplicated(slice);
  }
}
