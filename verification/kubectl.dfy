/** The cluster as the tool sees it: the outcome of each `kubectl` command
    line it runs. The commands are not executed; each is an oracle the whole
    model is parameterised by. */
module Kubectl {

  /** The outcome of one `kubectl` run. A failed run keeps whatever it wrote
      to standard output, because one caller still reads it. */
  datatype Outcome = Ok(stdout: string) | Err(stdout: string, stderr: string)

  /** One oracle per command line the tool builds. */
  datatype Cluster = Cluster(
    // kubectl config view --minify -o jsonpath={..namespace}
    configNamespace: Outcome,
    // kubectl api-resources --verbs=list --namespaced=true -n <ns> -o name
    apiResources: string -> Outcome,
    // kubectl get <kind> --no-headers   (no -n: the ambient context's namespace)
    getNoHeaders: string -> Outcome,
    // kubectl get <kind> -o yaml        (no -n: the ambient context's namespace)
    getYaml: string -> Outcome,
    // kubectl get <kind> -n <ns> -o jsonpath=<container and init-container images>
    getImages: (string, string) -> Outcome)

  /** `checkResource`: the liveness rule applied to the outcome of
      `kubectl get <kind> --no-headers`. */
  predicate CheckResource(o: Outcome) {
    o.Ok? && |o.stdout| > 0
  }

  predicate Live(c: Cluster, kind: string) {
    CheckResource(c.getNoHeaders(kind))
  }

  /** The live kinds among `kinds`, in their order, repeats included. */
  function LiveKinds(c: Cluster, kinds: seq<string>): seq<string> {
    if |kinds| == 0 then []
    else (if Live(c, kinds[0]) then [kinds[0]] else []) + LiveKinds(c, kinds[1..])
  }

  /** LiveKinds keeps every live kind as often as the catalog lists it and
      drops every other kind. */
  lemma {:induction false} LiveKindsCount(c: Cluster, kinds: seq<string>, kind: string)
    ensures multiset(LiveKinds(c, kinds))[kind] == if Live(c, kind) then multiset(kinds)[kind] else 0
    decreases |kinds|
  {
    if |kinds| > 0 {
      LiveKindsCount(c, kinds[1..], kind);
      assert kinds == [kinds[0]] + kinds[1..];
    }
  }

  lemma {:induction false} LiveKindsMembers(c: Cluster, kinds: seq<string>)
    ensures forall kind :: kind in LiveKinds(c, kinds) <==> kind in kinds && Live(c, kind)
  {
    forall kind
      ensures kind in LiveKinds(c, kinds) <==> kind in kinds && Live(c, kind)
    {
      LiveKindsCount(c, kinds, kind);
    }
  }

  lemma {:induction false} LiveKindsLength(c: Cluster, kinds: seq<string>)
    ensures |LiveKinds(c, kinds)| <= |kinds|
    decreases |kinds|
  {
    if |kinds| > 0 {
      LiveKindsLength(c, kinds[1..]);
    }
  }
}
