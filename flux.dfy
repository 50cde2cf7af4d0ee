/**
 * `createFlux2Resources` of ops/infra/src/flux.ts: the Flux namespace and
 * Helm release, then, per GitOps configuration, the workload-identity binding,
 * the artifact registry, the git secret, the GitRepository and, per target,
 * the namespace and the stages of the plan. The top-level program of
 * ops/infra/index.ts runs the same per-configuration loop (lines 518-690).
 */
module Flux {
  import opened Wrappers
  import opened Catalog
  import opened Stages
  import opened Resources
  import Text

  /** The Flux controllers whose resource requests the Helm values set. */
  const ControllerNames: seq<string> := [
    "helmController",
    "imageAutomationController",
    "imageReflectionController",
    "kustomizeController",
    "notificationController",
    "sourceController"
  ]

  const FluxChartRepo := "https://fluxcd-community.github.io/helm-charts/"
  const GitRepositoryInterval := "1m0s"
  const WorkloadIdentityUserRole := "roles/iam.workloadIdentityUser"

  /** The logical name of the artifact-registry admin service account the bindings attach to. */
  const ArAdminAccount := "artifact-resistry-admin-sa"

  // ----- Helm values -----

  /** Every named controller mapped to the same resource requests. */
  function ValuesFor(names: seq<string>, req: Requests): map<string, Requests>
  {
    map n | n in names :: req
  }

  /** The `reduce` that fills the Helm values object, one controller at a time. */
  method ControllerValues(names: seq<string>, req: Requests) returns (acc: map<string, Requests>)
    ensures acc == ValuesFor(names, req)
  {
    acc := map[];
    for i := 0 to |names|
      invariant acc.Keys == set k | 0 <= k < i :: names[k]
      invariant forall n :: n in acc ==> acc[n] == req
    {
      acc := acc[names[i] := req];
    }
    assert acc.Keys == ValuesFor(names, req).Keys by {
      forall n | n in names ensures n in acc.Keys {
        var k :| 0 <= k < |names| && names[k] == n;
      }
    }
  }

  lemma {:induction false} DistinctCard(s: seq<string>)
    requires forall i, j :: 0 <= i < j < |s| ==> s[i] != s[j]
    ensures |set x | x in s| == |s|
  {
    if |s| > 0 {
      var init := s[..|s| - 1];
      DistinctCard(init);
      assert (set x | x in s) == (set x | x in init) + {s[|s| - 1]};
      assert s[|s| - 1] !in init;
    }
  }

  /** The values object holds exactly the six controllers, each with the given requests. */
  lemma ControllerValuesShape(req: Requests)
    ensures |ValuesFor(ControllerNames, req)| == 6
    ensures forall n :: n in ValuesFor(ControllerNames, req) <==> n in ControllerNames
    ensures forall n :: n in ValuesFor(ControllerNames, req) ==> ValuesFor(ControllerNames, req)[n] == req
  {
    DistinctCard(ControllerNames);
    assert ValuesFor(ControllerNames, req).Keys == set x | x in ControllerNames;
  }

  // ----- The repository path -----

  /**
   * `new URL(url).pathname` for URLs of the form
   * `scheme://host[/path][?query][#fragment]`; `None` where the model finds no
   * such form (the source's constructor throws on a URL without scheme or host).
   */
  function UrlPathname(url: string): (r: Option<string>)
    ensures r.Some? ==> |r.value| >= 1 && r.value[0] == '/'
  {
    match Text.Find(url, "://", 0)
    case None => None
    case Some(i) => if i == 0 then None else PathAfterScheme(url[i + 3..])
  }

  /** The pathname read from what follows `://`: the host must be non-empty. */
  function PathAfterScheme(rest: string): (r: Option<string>)
    ensures r.Some? ==> |r.value| >= 1 && r.value[0] == '/'
  {
    var a := Text.FirstOf(rest, {'/', '?', '#'});
    if a == 0 then None else Some(PathOf(rest[a..]))
  }

  /** The path part of what follows the host, up to a query or fragment; `/` when empty. */
  function PathOf(tail: string): (r: string)
    requires tail == "" || tail[0] in {'/', '?', '#'}
    ensures |r| >= 1 && r[0] == '/'
  {
    var p := tail[..Text.FirstOf(tail, {'?', '#'})];
    if p == "" then "/" else p
  }

  /** `pathname.slice(0, -1)`: the URL path without its last character. */
  function RepositoryPath(url: string): (r: Option<string>)
    ensures r.Some? <==> UrlPathname(url).Some?
    ensures r.Some? ==> r.value + [UrlPathname(url).value[|UrlPathname(url).value| - 1]] == UrlPathname(url).value
  {
    match UrlPathname(url)
    case None => None
    case Some(p) => Some(Text.DropLast(p))
  }

  /**
   * For a URL `scheme://host path query` (a scheme without `:`, a non-empty
   * host without `/`, `?` or `#`, a path without `?` or `#` that is empty or
   * starts with `/`, and an optional query or fragment), the pathname is the
   * path, or `/` when it is empty, and the repository path drops its last character.
   */
  lemma PathnameOfUrl(scheme: string, host: string, path: string, query: string)
    requires |scheme| > 0 && ':' !in scheme
    requires |host| > 0 && '/' !in host && '?' !in host && '#' !in host
    requires (path == "" || path[0] == '/') && '?' !in path && '#' !in path
    requires query == "" || query[0] == '?' || query[0] == '#'
    ensures var url := scheme + "://" + host + path + query;
      && UrlPathname(url) == Some(if path == "" then "/" else path)
      && RepositoryPath(url) == Some(if path == "" then "" else path[..|path| - 1])
  {
    var url := scheme + "://" + host + path + query;
    SchemeEnd(scheme, host + path + query);
    assert url == scheme + "://" + (host + path + query);
    assert url[|scheme| + 3..] == host + path + query;
    AuthorityEnd(host, path, query);
  }

  lemma SchemeEnd(scheme: string, after: string)
    requires |scheme| > 0 && ':' !in scheme
    ensures Text.Find(scheme + "://" + after, "://", 0) == Some(|scheme|)
  {
    var url := scheme + "://" + after;
    var i := |scheme|;
    assert Text.OccursAt(url, "://", i) by {
      assert url[i..i + 3] == "://";
    }
    forall k | 0 <= k < i ensures !Text.OccursAt(url, "://", k) {
      assert url[k] == scheme[k];
    }
    Text.FindIs(url, "://", i);
  }

  lemma AuthorityEnd(host: string, path: string, query: string)
    requires |host| > 0 && '/' !in host && '?' !in host && '#' !in host
    requires (path == "" || path[0] == '/') && '?' !in path && '#' !in path
    requires query == "" || query[0] == '?' || query[0] == '#'
    ensures PathAfterScheme(host + path + query) == Some(if path == "" then "/" else path)
  {
    Text.FirstOfIs(host + path + query, {'/', '?', '#'}, |host|);
    assert (host + path + query)[|host|..] == path + query;
    Text.FirstOfIs(path + query, {'?', '#'}, |path|);
    assert (path + query)[..|path|] == path;
  }

  /** The catalog's repository URL yields the GitHub repository path `/cheap-k8s/example`. */
  lemma ExampleRepositoryPath(url: string)
    requires url == "https://github.com/cheap-k8s/example/"
    ensures RepositoryPath(url) == Some("/cheap-k8s/example")
  {
    var scheme, host, path := "https", "github.com", "/cheap-k8s/example/";
    ExampleUrlSplit(url, scheme, host, path);
    PathnameOfUrl(scheme, host, path, "");
    assert path[..|path| - 1] == "/cheap-k8s/example";
  }

  /** The catalog URL as its parts; kept apart so the literal's unfolding stays out of the caller's proof. */
  lemma ExampleUrlSplit(url: string, scheme: string, host: string, path: string)
    requires url == "https://github.com/cheap-k8s/example/"
    requires scheme == "https" && host == "github.com" && path == "/cheap-k8s/example/"
    ensures scheme + "://" + host + path + "" == url
  {
  }

  // ----- What one configuration declares -----

  predicate UrlParses(c: GitOpsConfig)
  {
    UrlPathname(c.repository.url).Some?
  }

  function WorkloadIdentityBinding(c: GitOpsConfig, pool: string, path: string): Resource
  {
    IamMember("ar-admin-wi-iam-binding-" + c.name, ArAdminAccount, WorkloadIdentityUserRole,
              "principalSet://iam.googleapis.com/" + pool + "/attribute.repository" + path)
  }

  function ArtifactRegistryOf(c: GitOpsConfig, region: string): Resource
  {
    ArtifactRegistry("artifact-registry-" + c.name, c.name, "DOCKER", region, c.name)
  }

  function GitSecretOf(c: GitOpsConfig): Resource
  {
    Secret(GitSecretName(c.name), GitSecretName(c.name), Flux2Namespace,
           StringData(c.secret.username, c.secret.password))
  }

  function GitRepositoryOf(c: GitOpsConfig): Resource
  {
    GitRepository(GitRepositoryName(c.name), GitRepositoryName(c.name), Flux2Namespace,
                  GitRepositoryInterval, c.repository.url, GitSecretName(c.name), c.repository.branch)
  }

  function TargetNamespaceOf(sl: Slot): Resource
  {
    Namespace(SlotNamespace(sl) + "-namespace", SlotNamespace(sl))
  }

  function AsKustomizations(st: seq<Stage>): (r: seq<Resource>)
    ensures |r| == |st|
    ensures forall i :: 0 <= i < |st| ==> r[i] == Kustomization(st[i].name, st[i])
  {
    seq(|st|, i requires 0 <= i < |st| => Kustomization(st[i].name, st[i]))
  }

  /** What one target declares: its namespace, then its stages. */
  function TargetResources(sl: Slot): seq<Resource>
  {
    [TargetNamespaceOf(sl)] + AsKustomizations(TargetStages(sl))
  }

  function SlotsResources(ss: seq<Slot>): seq<Resource>
  {
    if |ss| == 0 then [] else SlotsResources(ss[..|ss| - 1]) + TargetResources(ss[|ss| - 1])
  }

  function RepoHeader(c: GitOpsConfig, path: string, pool: string, region: string): seq<Resource>
  {
    [WorkloadIdentityBinding(c, pool, path), ArtifactRegistryOf(c, region), GitSecretOf(c), GitRepositoryOf(c)]
  }

  /**
   * What one configuration declares, in order; nothing when its URL does not
   * parse (the source throws there, before declaring anything for it).
   */
  function RepoResources(c: GitOpsConfig, pool: string, region: string): seq<Resource>
  {
    match RepositoryPath(c.repository.url)
    case None => []
    case Some(path) => RepoHeader(c, path, pool, region) + SlotsResources(ConfigSlots(c))
  }

  function ReposResources(cs: seq<GitOpsConfig>, pool: string, region: string): seq<Resource>
  {
    if |cs| == 0 then []
    else ReposResources(cs[..|cs| - 1], pool, region) + RepoResources(cs[|cs| - 1], pool, region)
  }

  /** The artifact registries of the configurations, in order: what the loop returns. */
  function ArtifactRegistries(cs: seq<GitOpsConfig>, region: string): (r: seq<Resource>)
    ensures |r| == |cs|
    ensures forall i :: 0 <= i < |cs| ==> r[i] == ArtifactRegistryOf(cs[i], region)
  {
    if |cs| == 0 then [] else ArtifactRegistries(cs[..|cs| - 1], region) + [ArtifactRegistryOf(cs[|cs| - 1], region)]
  }

  /** The number of leading configurations whose URL parses: where registration stops. */
  function ValidPrefix(cs: seq<GitOpsConfig>): (n: nat)
    ensures n <= |cs|
    ensures forall i :: 0 <= i < n ==> UrlParses(cs[i])
    ensures n < |cs| ==> !UrlParses(cs[n])
  {
    FirstUnparsed(cs, 0)
  }

  /** The first index at or after `k` whose URL does not parse, or `|cs|`. */
  function FirstUnparsed(cs: seq<GitOpsConfig>, k: nat): (n: nat)
    requires k <= |cs|
    ensures k <= n <= |cs|
    ensures forall i :: k <= i < n ==> UrlParses(cs[i])
    ensures n < |cs| ==> !UrlParses(cs[n])
    decreases |cs| - k
  {
    if k == |cs| || !UrlParses(cs[k]) then k else FirstUnparsed(cs, k + 1)
  }

  // ----- Registration -----

  /** The body of `targets.map`: the namespace, then pre if enabled, apply, post if enabled. */
  method RegisterTarget(reg: Registry, sl: Slot)
    modifies reg
    ensures reg.resources == old(reg.resources) + TargetResources(sl)
  {
    reg.Register(TargetNamespaceOf(sl));
    if sl.target.pre.enable {
      var s := PreStage(sl);
      reg.Register(Kustomization(s.name, s));
    }
    var s := ApplyStage(sl);
    reg.Register(Kustomization(s.name, s));
    if sl.target.post.enable {
      var s := PostStage(sl);
      reg.Register(Kustomization(s.name, s));
    }
  }

  /** The `targets.map` of one configuration, target by target. */
  method RegisterSlots(reg: Registry, slots: seq<Slot>)
    modifies reg
    ensures reg.resources == old(reg.resources) + SlotsResources(slots)
  {
    for j := 0 to |slots|
      invariant reg.resources == old(reg.resources) + SlotsResources(slots[..j])
    {
      RegisterTarget(reg, slots[j]);
      SlotsResourcesStep(old(reg.resources), slots, j);
    }
    assert slots[..|slots|] == slots;
  }

  /** The objects one configuration declares before its targets; returns the registry. */
  method RegisterHeader(reg: Registry, c: GitOpsConfig, path: string, pool: string, region: string)
    returns (registry: Resource)
    modifies reg
    ensures registry == ArtifactRegistryOf(c, region)
    ensures reg.resources == old(reg.resources) + RepoHeader(c, path, pool, region)
  {
    reg.Register(WorkloadIdentityBinding(c, pool, path));
    registry := ArtifactRegistryOf(c, region);
    reg.Register(registry);
    reg.Register(GitSecretOf(c));
    reg.Register(GitRepositoryOf(c));
  }

  /**
   * The body of `gitOpsConfigs.map`: returns the artifact registry, or `None`
   * when the repository URL does not parse, in which case nothing is declared
   * for this configuration and the loop aborts.
   */
  method RegisterRepo(reg: Registry, c: GitOpsConfig, pool: string, region: string) returns (ar: Option<Resource>)
    modifies reg
    ensures ar.Some? <==> UrlParses(c)
    ensures ar.Some? ==> ar.value == ArtifactRegistryOf(c, region)
    ensures reg.resources == old(reg.resources) + RepoResources(c, pool, region)
    ensures ar.None? ==> reg.resources == old(reg.resources)
  {
    var path := RepositoryPath(c.repository.url);
    if path.None? {
      return None;
    }
    var registry := RegisterHeader(reg, c, path.value, pool, region);
    RegisterSlots(reg, ConfigSlots(c));
    AppendAssoc(old(reg.resources), RepoHeader(c, path.value, pool, region), SlotsResources(ConfigSlots(c)));
    ar := Some(registry);
  }

  /**
   * The per-configuration loop. Configurations are declared in order until the
   * first whose URL does not parse; the registries are returned only when all do.
   */
  method RegisterRepos(reg: Registry, cs: seq<GitOpsConfig>, pool: string, region: string)
    returns (registries: Option<seq<Resource>>)
    modifies reg
    ensures reg.resources == old(reg.resources) + ReposResources(cs[..ValidPrefix(cs)], pool, region)
    ensures registries.Some? <==> ValidPrefix(cs) == |cs|
    ensures registries.Some? ==> registries.value == ArtifactRegistries(cs, region)
  {
    var regs: seq<Resource> := [];
    var i := 0;
    while i < |cs|
      invariant 0 <= i <= |cs|
      invariant i <= ValidPrefix(cs)
      invariant reg.resources == old(reg.resources) + ReposResources(cs[..i], pool, region)
      invariant regs == ArtifactRegistries(cs[..i], region)
    {
      ReposResourcesStep(old(reg.resources), cs, i, pool, region);
      var ar := RegisterNext(reg, cs, i, pool, region);
      if ar.None? {
        return None;
      }
      ArtifactRegistriesStep(cs, i, region);
      regs := regs + [ar.value];
      i := i + 1;
    }
    assert cs[..|cs|] == cs;
    registries := Some(regs);
  }

  /** One turn of the loop: the configuration at `i`, whose failure ends the valid prefix. */
  method RegisterNext(reg: Registry, cs: seq<GitOpsConfig>, i: nat, pool: string, region: string)
    returns (ar: Option<Resource>)
    requires i < |cs| && i <= ValidPrefix(cs)
    modifies reg
    ensures ar.Some? ==> i + 1 <= ValidPrefix(cs) && ar.value == ArtifactRegistryOf(cs[i], region)
    ensures ar.Some? ==> reg.resources == old(reg.resources) + RepoResources(cs[i], pool, region)
    ensures ar.None? ==> ValidPrefix(cs) == i && reg.resources == old(reg.resources)
  {
    ar := RegisterRepo(reg, cs[i], pool, region);
    if ar.None? {
      ParseFailureEndsPrefix(cs, i);
    } else {
      ParsingExtendsPrefix(cs, i);
    }
  }

  lemma ReposResourcesStep(before: seq<Resource>, cs: seq<GitOpsConfig>, i: nat, pool: string, region: string)
    requires i < |cs|
    ensures before + ReposResources(cs[..i + 1], pool, region)
         == (before + ReposResources(cs[..i], pool, region)) + RepoResources(cs[i], pool, region)
  {
    assert cs[..i + 1][..i] == cs[..i];
    assert before + (ReposResources(cs[..i], pool, region) + RepoResources(cs[i], pool, region)) == (before + ReposResources(cs[..i], pool, region)) + RepoResources(cs[i], pool, region);
  }

  lemma SlotsResourcesStep(before: seq<Resource>, ss: seq<Slot>, j: nat)
    requires j < |ss|
    ensures before + SlotsResources(ss[..j + 1]) == (before + SlotsResources(ss[..j])) + TargetResources(ss[j])
  {
    assert ss[..j + 1][..j] == ss[..j];
    assert before + (SlotsResources(ss[..j]) + TargetResources(ss[j])) == (before + SlotsResources(ss[..j])) + TargetResources(ss[j]);
  }

  lemma ArtifactRegistriesStep(cs: seq<GitOpsConfig>, i: nat, region: string)
    requires i < |cs|
    ensures ArtifactRegistries(cs[..i + 1], region) == ArtifactRegistries(cs[..i], region) + [ArtifactRegistryOf(cs[i], region)]
  {
    assert cs[..i + 1][..i] == cs[..i];
  }

  lemma ParsingExtendsPrefix(cs: seq<GitOpsConfig>, i: nat)
    requires i < |cs| && i <= ValidPrefix(cs) && UrlParses(cs[i])
    ensures i + 1 <= ValidPrefix(cs)
  {
  }

  lemma ParseFailureEndsPrefix(cs: seq<GitOpsConfig>, i: nat)
    requires i < |cs| && i <= ValidPrefix(cs) && !UrlParses(cs[i])
    ensures ValidPrefix(cs) == i
  {
  }

  /**
   * Regrouping a concatenation. An inline assert does the same elsewhere; in
   * `RegisterRepo` the solver needs it as a separate fact to stay within bounds.
   */
  lemma AppendAssoc(a: seq<Resource>, b: seq<Resource>, c: seq<Resource>)
    ensures a + (b + c) == (a + b) + c
  {
  }

  // ----- What the declarations amount to -----

  /** The target namespaces of a sequence of slots, in order. */
  function SlotNamespaces(ss: seq<Slot>): seq<string>
  {
    if |ss| == 0 then [] else SlotNamespaces(ss[..|ss| - 1]) + [SlotNamespace(ss[|ss| - 1])]
  }

  /** All URLs of the catalog parse, so the loop runs to the end. */
  predicate AllParse(cs: seq<GitOpsConfig>)
  {
    forall i :: 0 <= i < |cs| ==> UrlParses(cs[i])
  }

  lemma {:induction false} KustomizationsFilter(st: seq<Stage>)
    ensures KustomizationStages(AsKustomizations(st)) == st
    ensures NamespaceNames(AsKustomizations(st)) == []
  {
    if |st| > 0 {
      var init := st[..|st| - 1];
      KustomizationsFilter(init);
      assert AsKustomizations(st)[..|st| - 1] == AsKustomizations(init);
    }
  }

  /** A target declares its one namespace and exactly its stages. */
  lemma TargetFilter(sl: Slot)
    ensures KustomizationStages(TargetResources(sl)) == TargetStages(sl)
    ensures NamespaceNames(TargetResources(sl)) == [SlotNamespace(sl)]
  {
    var st := TargetStages(sl);
    KustomizationsFilter(st);
    FiltersAppend([TargetNamespaceOf(sl)], AsKustomizations(st));
    assert KustomizationStages([TargetNamespaceOf(sl)]) == [];
    assert NamespaceNames([TargetNamespaceOf(sl)]) == [SlotNamespace(sl)];
  }

  lemma {:induction false} SlotsFilter(ss: seq<Slot>)
    ensures KustomizationStages(SlotsResources(ss)) == StagesOf(ss)
    ensures NamespaceNames(SlotsResources(ss)) == SlotNamespaces(ss)
  {
    if |ss| > 0 {
      var init, last := ss[..|ss| - 1], ss[|ss| - 1];
      SlotsFilter(init);
      TargetFilter(last);
      FiltersAppend(SlotsResources(init), TargetResources(last));
    }
  }

  lemma {:induction false} SlotNamespacesAppend(a: seq<Slot>, b: seq<Slot>)
    ensures SlotNamespaces(a + b) == SlotNamespaces(a) + SlotNamespaces(b)
    decreases |b|
  {
    if |b| > 0 {
      var b' := b[..|b| - 1];
      assert (a + b)[..|a + b| - 1] == a + b';
      assert (a + b)[|a + b| - 1] == b[|b| - 1];
      SlotNamespacesAppend(a, b');
    } else {
      assert a + b == a;
    }
  }

  lemma {:induction false} SlotNamespacesMember(ss: seq<Slot>, sl: Slot)
    requires sl in ss
    ensures SlotNamespace(sl) in SlotNamespaces(ss)
  {
    var init := ss[..|ss| - 1];
    if sl != ss[|ss| - 1] {
      assert sl in init;
      SlotNamespacesMember(init, sl);
    }
  }

  /** A configuration declares no namespace and no stage besides its targets'. */
  lemma RepoFilter(c: GitOpsConfig, pool: string, region: string)
    requires UrlParses(c)
    ensures KustomizationStages(RepoResources(c, pool, region)) == StagesOf(ConfigSlots(c))
    ensures NamespaceNames(RepoResources(c, pool, region)) == SlotNamespaces(ConfigSlots(c))
  {
    var path := RepositoryPath(c.repository.url).value;
    assert RepoResources(c, pool, region) == RepoHeader(c, path, pool, region) + SlotsResources(ConfigSlots(c));
    HeaderFilter(c, path, pool, region);
  }

  lemma HeaderFilter(c: GitOpsConfig, path: string, pool: string, region: string)
    ensures var rs := RepoHeader(c, path, pool, region) + SlotsResources(ConfigSlots(c));
      && KustomizationStages(rs) == StagesOf(ConfigSlots(c))
      && NamespaceNames(rs) == SlotNamespaces(ConfigSlots(c))
  {
    var header := RepoHeader(c, path, pool, region);
    SlotsFilter(ConfigSlots(c));
    FiltersAppend(header, SlotsResources(ConfigSlots(c)));
    HeaderSkipped(c, path, pool, region);
  }

  lemma HeaderSkipped(c: GitOpsConfig, path: string, pool: string, region: string)
    ensures KustomizationStages(RepoHeader(c, path, pool, region)) == []
    ensures NamespaceNames(RepoHeader(c, path, pool, region)) == []
  {
    FiltersSkip(RepoHeader(c, path, pool, region));
  }

  /**
   * What the per-configuration loop declares, filtered: its Kustomizations are
   * exactly the stage plan, in plan order, and its namespaces are one per
   * target, in catalog order.
   */
  lemma {:induction false} DeclaredPlan(cs: seq<GitOpsConfig>, pool: string, region: string)
    requires AllParse(cs)
    ensures KustomizationStages(ReposResources(cs, pool, region)) == Plan(cs)
    ensures NamespaceNames(ReposResources(cs, pool, region)) == SlotNamespaces(Slots(cs))
  {
    if |cs| > 0 {
      var init, last := cs[..|cs| - 1], cs[|cs| - 1];
      assert AllParse(init) by {
        forall i | 0 <= i < |init| ensures UrlParses(init[i]) {
          assert init[i] == cs[i];
        }
      }
      DeclaredPlan(init, pool, region);
      RepoFilter(last, pool, region);
      FiltersAppend(ReposResources(init, pool, region), RepoResources(last, pool, region));
      StagesOfAppend(Slots(init), ConfigSlots(last));
      SlotNamespacesAppend(Slots(init), ConfigSlots(last));
    }
  }

  /** Everything a configuration declares is among what the loop declares. */
  lemma {:induction false} RepoDeclared(cs: seq<GitOpsConfig>, c: GitOpsConfig, pool: string, region: string, r: Resource)
    requires c in cs && r in RepoResources(c, pool, region)
    ensures r in ReposResources(cs, pool, region)
  {
    var init, last := cs[..|cs| - 1], cs[|cs| - 1];
    if c != last {
      assert c in init;
      RepoDeclared(init, c, pool, region, r);
    }
  }

  /** Every stage's target namespace is among the declared namespaces. */
  lemma StageNamespaceDeclared(cs: seq<GitOpsConfig>, pool: string, region: string, s: Stage)
    requires AllParse(cs) && s in Plan(cs)
    ensures s.targetNamespace in NamespaceNames(ReposResources(cs, pool, region))
  {
    PlanMember(cs, s);
    var sl :| sl in Slots(cs) && s in TargetStages(sl);
    TargetStageFields(sl, s);
    DeclaredPlan(cs, pool, region);
    SlotNamespacesMember(Slots(cs), sl);
  }

  /** A configuration whose URL parses declares its GitRepository and the secret it reads. */
  lemma RepoSources(c: GitOpsConfig, pool: string, region: string)
    requires UrlParses(c)
    ensures GitRepositoryOf(c) in RepoResources(c, pool, region)
    ensures GitSecretOf(c) in RepoResources(c, pool, region)
    ensures GitRepositoryOf(c).secretRef == GitSecretOf(c).name
    ensures GitRepositoryOf(c).namespace == GitSecretOf(c).namespace == Flux2Namespace
  {
    var header := RepoHeader(c, RepositoryPath(c.repository.url).value, pool, region);
    assert RepoResources(c, pool, region)[2] == header[2];
    assert RepoResources(c, pool, region)[3] == header[3];
  }

  /**
   * Every stage's source is a declared GitRepository in the Flux namespace,
   * and the secret that GitRepository reads is declared beside it: no
   * Kustomization refers to a source the program does not create.
   */
  lemma StageSourceDeclared(cs: seq<GitOpsConfig>, pool: string, region: string, s: Stage)
    requires AllParse(cs) && s in Plan(cs)
    ensures exists g, k ::
      && g in ReposResources(cs, pool, region) && k in ReposResources(cs, pool, region)
      && g.GitRepository? && g.name == s.sourceRef.name && g.namespace == s.sourceRef.namespace
      && k.Secret? && k.name == g.secretRef && k.namespace == g.namespace
  {
    PlanMember(cs, s);
    var sl :| sl in Slots(cs) && s in TargetStages(sl);
    TargetStageFields(sl, s);
    var c := sl.config;
    ConfigSourcesDeclared(cs, sl, pool, region);
    var g, k := GitRepositoryOf(c), GitSecretOf(c);
    assert g in ReposResources(cs, pool, region) && k in ReposResources(cs, pool, region);
    assert g.name == s.sourceRef.name && g.namespace == s.sourceRef.namespace;
    assert k.name == g.secretRef && k.namespace == g.namespace;
  }

  lemma ConfigSourcesDeclared(cs: seq<GitOpsConfig>, sl: Slot, pool: string, region: string)
    requires AllParse(cs) && sl in Slots(cs)
    ensures GitRepositoryOf(sl.config) in ReposResources(cs, pool, region)
    ensures GitSecretOf(sl.config) in ReposResources(cs, pool, region)
  {
    SlotTargetOwned(cs, sl);
    var c := sl.config;
    var i :| 0 <= i < |cs| && cs[i] == c;
    assert UrlParses(cs[i]);
    RepoSources(c, pool, region);
    RepoDeclared(cs, c, pool, region, GitRepositoryOf(c));
    RepoDeclared(cs, c, pool, region, GitSecretOf(c));
  }

  function Flux2NamespaceOf(): Resource { Namespace("flux2-namespace", Flux2Namespace) }

  function Flux2ReleaseOf(values: map<string, Requests>): Resource
  {
    HelmRelease("flux2", "flux2", Flux2Namespace, FluxChartRepo, values)
  }

  /** `createFlux2Resources`: the Flux namespace and release, then the per-configuration loop. */
  method CreateFlux2Resources(reg: Registry, cs: seq<GitOpsConfig>, pool: string, region: string)
    returns (registries: Option<seq<Resource>>)
    modifies reg
    ensures reg.resources == old(reg.resources)
      + [Flux2NamespaceOf(), Flux2ReleaseOf(ValuesFor(ControllerNames, Requests("0", "0")))]
      + ReposResources(cs[..ValidPrefix(cs)], pool, region)
    ensures registries.Some? <==> ValidPrefix(cs) == |cs|
    ensures registries.Some? ==> registries.value == ArtifactRegistries(cs, region)
  {
    reg.Register(Flux2NamespaceOf());
    var values := ControllerValues(ControllerNames, Requests("0", "0"));
    reg.Register(Flux2ReleaseOf(values));
    assert reg.resources == old(reg.resources) + [Flux2NamespaceOf(), Flux2ReleaseOf(values)];
    registries := RegisterRepos(reg, cs, pool, region);
  }
}
