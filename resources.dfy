/**
 * The objects the program declares to its provisioning engine, and the
 * registration itself: every `new Resource(...)` (and the one `Secret.get`)
 * appends one record, in program order, to the registry.
 */
module Resources {
  import opened Stages

  datatype Requests = Requests(cpu: string, memory: string)

  /** A secret's payload: literal string data, or the data of another secret copied as is. */
  datatype SecretData = StringData(username: string, password: string) | CopiedFrom(source: string)

  /**
   * One declared object. `id` is the engine's logical name (the first
   * constructor argument); the other fields are the object's own.
   */
  datatype Resource =
    | Namespace(id: string, name: string)
    | HelmRelease(id: string, chart: string, namespace: string, repo: string, values: map<string, Requests>)
    | IamMember(id: string, account: string, role: string, member: string)
    | ArtifactRegistry(id: string, description: string, format: string, location: string, repositoryId: string)
    | Secret(id: string, name: string, namespace: string, data: SecretData)
    | SecretRead(id: string, ref: string)
    | GitRepository(id: string, name: string, namespace: string, interval: string, url: string, secretRef: string, branch: string)
    | Kustomization(id: string, stage: Stage)

  /** The provisioning engine's record of declared objects, in declaration order. */
  class Registry {
    var resources: seq<Resource>

    constructor ()
      ensures resources == []
    {
      resources := [];
    }

    method Register(r: Resource)
      modifies this
      ensures resources == old(resources) + [r]
    {
      resources := resources + [r];
    }
  }

  /** The Kustomization objects among `rs`, as stages, in order. */
  function KustomizationStages(rs: seq<Resource>): seq<Stage>
  {
    if |rs| == 0 then []
    else KustomizationStages(rs[..|rs| - 1]) + (if rs[|rs| - 1].Kustomization? then [rs[|rs| - 1].stage] else [])
  }

  /** The names of the Namespace objects among `rs`, in order. */
  function NamespaceNames(rs: seq<Resource>): seq<string>
  {
    if |rs| == 0 then []
    else NamespaceNames(rs[..|rs| - 1]) + (if rs[|rs| - 1].Namespace? then [rs[|rs| - 1].name] else [])
  }

  /** Objects that are neither Kustomizations nor namespaces contribute nothing to either filter. */
  lemma {:induction false} FiltersSkip(rs: seq<Resource>)
    requires forall i :: 0 <= i < |rs| ==> !rs[i].Kustomization? && !rs[i].Namespace?
    ensures KustomizationStages(rs) == [] && NamespaceNames(rs) == []
  {
    if |rs| > 0 {
      FiltersSkip(rs[..|rs| - 1]);
    }
  }

  lemma {:induction false} FiltersAppend(a: seq<Resource>, b: seq<Resource>)
    ensures KustomizationStages(a + b) == KustomizationStages(a) + KustomizationStages(b)
    ensures NamespaceNames(a + b) == NamespaceNames(a) + NamespaceNames(b)
    decreases |b|
  {
    if |b| > 0 {
      var b' := b[..|b| - 1];
      assert (a + b)[..|a + b| - 1] == a + b';
      assert (a + b)[|a + b| - 1] == b[|b| - 1];
      FiltersAppend(a, b');
    } else {
      assert a + b == a;
    }
  }
}
