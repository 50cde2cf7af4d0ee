/**
 * The top-level program (ops/infra/index.ts) as far as it derives data from
 * the GitOps catalog: the example catalog, the Postgres users, the per-target
 * copies of the database secrets, the workload-identity members of the
 * Postgres operator's service accounts, and the registration order of the
 * Flux objects, whose stage loop is the one of `createFlux2Resources`.
 */
module Infra {
  import opened Wrappers
  import opened Catalog
  import opened Stages
  import opened Resources
  import opened Flux
  import Env

  // ----- Domains -----

  /** The domains the program serves through its reverse proxy. */
  const DomainNames: seq<string> := [
    "staging.poc.epdndo.com",
    "api-staging.poc.epdndo.com",
    "production.poc.epdndo.com",
    "api-production.poc.epdndo.com"
  ]

  /** Outside dev builds the client's API host is one of the served domains. */
  lemma ClientHostServed(hostname: string)
    ensures Env.GetEnvVars(false, hostname).apiServerHost in DomainNames
  {
    assert DomainNames[1] == Env.StagingApiHost && DomainNames[3] == Env.ProductionApiHost;
  }

  // ----- The example catalog -----

  const ExampleUrl := "https://github.com/cheap-k8s/example/"

  /** A target of the example catalog: pre and post both enabled. */
  function ExampleTarget(name: string, path: string, pre: Option<string>, post: Option<string>): Target
  {
    Target(name, path, Step(true, pre), Step(true, post))
  }

  /** `gitOpsConfigs` of ops/infra/index.ts: no step paths are declared. */
  function ExampleCatalog(githubToken: string): seq<GitOpsConfig>
  {
    [GitOpsConfig("example", Credential("cheap-k8s", githubToken),
      Repository(ExampleUrl, "main",
        [ ExampleTarget("staging", "./ops/app/staging", None, None),
          ExampleTarget("production", "./ops/app/production", None, None) ]))]
  }

  /** `gitOpsConfigs` of ops/infra/src/index.ts: the same catalog with step paths declared. */
  function PathedExampleCatalog(githubToken: string): seq<GitOpsConfig>
  {
    [GitOpsConfig("example", Credential("cheap-k8s", githubToken),
      Repository(ExampleUrl, "main",
        [ ExampleTarget("staging", "./ops/app/staging",
            Some("./ops/app/staging/pre"), Some("./ops/app/staging/post")),
          ExampleTarget("production", "./ops/app/production",
            Some("./ops/app/production/pre"), Some("./ops/app/production/post")) ]))]
  }

  /** The two catalogs differ only in the step paths, so they yield the same plan. */
  lemma CatalogsAgree(githubToken: string)
    ensures EraseStepPaths(PathedExampleCatalog(githubToken)) == ExampleCatalog(githubToken)
    ensures Plan(PathedExampleCatalog(githubToken)) == Plan(ExampleCatalog(githubToken))
  {
    var cs := PathedExampleCatalog(githubToken);
    var e := EraseStepPaths(cs);
    var ts := e[0].repository.targets;
    assert ts == ExampleCatalog(githubToken)[0].repository.targets;
    assert e == ExampleCatalog(githubToken);
    PlanIgnoresStepPaths(cs);
  }

  function StagingSlot(githubToken: string): Slot
  {
    var c := ExampleCatalog(githubToken)[0];
    Slot(c, c.repository.targets[0])
  }

  function ProductionSlot(githubToken: string): Slot
  {
    var c := ExampleCatalog(githubToken)[0];
    Slot(c, c.repository.targets[1])
  }

  /** The example plan is pre, apply and post of staging, then of production. */
  lemma ExampleStages(githubToken: string)
    ensures Plan(ExampleCatalog(githubToken))
         == [ PreStage(StagingSlot(githubToken)), ApplyStage(StagingSlot(githubToken)), PostStage(StagingSlot(githubToken)),
              PreStage(ProductionSlot(githubToken)), ApplyStage(ProductionSlot(githubToken)), PostStage(ProductionSlot(githubToken)) ]
  {
    var staging, production := StagingSlot(githubToken), ProductionSlot(githubToken);
    ExampleSlots(ExampleCatalog(githubToken), staging, production);
    TwoTargetStages(staging, production);
  }

  /**
   * The example catalog yields six stages, pre/apply/post for staging and then
   * for production, deploying into `example-staging` and `example-production`.
   */
  lemma ExamplePlan(githubToken: string)
    ensures |Plan(ExampleCatalog(githubToken))| == 6
    ensures Plan(ExampleCatalog(githubToken))[0].name == "gitops-example-staging-pre"
    ensures Plan(ExampleCatalog(githubToken))[1].name == "gitops-example-staging"
    ensures Plan(ExampleCatalog(githubToken))[2].name == "gitops-example-staging-post"
    ensures Plan(ExampleCatalog(githubToken))[3].name == "gitops-example-production-pre"
    ensures Plan(ExampleCatalog(githubToken))[4].name == "gitops-example-production"
    ensures Plan(ExampleCatalog(githubToken))[5].name == "gitops-example-production-post"
    ensures forall k :: 0 <= k < 3 ==> Plan(ExampleCatalog(githubToken))[k].targetNamespace == "example-staging"
    ensures forall k :: 3 <= k < 6 ==> Plan(ExampleCatalog(githubToken))[k].targetNamespace == "example-production"
  {
    ExampleStages(githubToken);
    var staging, production := StagingSlot(githubToken), ProductionSlot(githubToken);
    assert staging.config.name == "example" && staging.target.name == "staging";
    assert production.config.name == "example" && production.target.name == "production";
    StagingNames();
    ProductionNames();
  }

  /** The example's URL parses, so both targets' namespaces and the whole plan are declared. */
  lemma ExampleDeclared(githubToken: string)
    ensures SlotNamespaces(Slots(ExampleCatalog(githubToken))) == ["example-staging", "example-production"]
    ensures ValidPrefix(ExampleCatalog(githubToken)) == 1
  {
    var cs := ExampleCatalog(githubToken);
    var staging, production := StagingSlot(githubToken), ProductionSlot(githubToken);
    ExampleSlots(cs, staging, production);
    assert SlotNamespaces([staging, production]) == [SlotNamespace(staging), SlotNamespace(production)] by {
      assert [staging, production][..1] == [staging];
      assert [staging][..0] == [];
      assert SlotNamespaces([staging]) == SlotNamespaces([]) + [SlotNamespace(staging)];
    }
    assert staging.config.name == "example" && staging.target.name == "staging";
    assert production.config.name == "example" && production.target.name == "production";
    StagingNames();
    ProductionNames();
    ExampleRepositoryPath(cs[0].repository.url);
    assert UrlParses(cs[0]);
  }

  lemma ExampleSlots(cs: seq<GitOpsConfig>, a: Slot, b: Slot)
    requires |cs| == 1 && |cs[0].repository.targets| == 2
    requires a == Slot(cs[0], cs[0].repository.targets[0]) && b == Slot(cs[0], cs[0].repository.targets[1])
    ensures Slots(cs) == [a, b]
  {
    assert cs[..0] == [];
    assert ConfigSlots(cs[0]) == [a, b];
  }

  /** Two targets with pre and post enabled yield their three stages each, in order. */
  lemma TwoTargetStages(a: Slot, b: Slot)
    requires a.target.pre.enable && a.target.post.enable && b.target.pre.enable && b.target.post.enable
    ensures StagesOf([a, b]) == [PreStage(a), ApplyStage(a), PostStage(a), PreStage(b), ApplyStage(b), PostStage(b)]
  {
    assert [a, b][..1] == [a];
    assert [a][..0] == [];
    assert StagesOf([a]) == StagesOf([]) + TargetStages(a);
  }

  /** The names of the staging target's stages and its namespace, written out. */
  lemma StagingNames()
    ensures PreName("example", "staging") == "gitops-example-staging-pre"
    ensures GitopsName("example", "staging") == "gitops-example-staging"
    ensures PostName("example", "staging") == "gitops-example-staging-post"
    ensures TargetNamespace("example", "staging") == "example-staging"
  {
  }

  /** The names of the production target's stages and its namespace, written out. */
  lemma ProductionNames()
    ensures PreName("example", "production") == "gitops-example-production-pre"
    ensures GitopsName("example", "production") == "gitops-example-production"
    ensures PostName("example", "production") == "gitops-example-production-post"
    ensures TargetNamespace("example", "production") == "example-production"
  {
  }

  // ----- Postgres users -----

  const PgoNamespace := "postgres-operator"
  const PgoClusterName := "pgo-cluster"

  /** A user of the Postgres cluster and the databases it owns. */
  datatype PgUser = PgUser(name: string, databases: seq<string>)

  /** The user of one target: named after the target namespace, owning the database of that name. */
  function TargetUser(sl: Slot): PgUser
  {
    PgUser(SlotNamespace(sl), [SlotNamespace(sl)])
  }

  function TargetUsers(ss: seq<Slot>): seq<PgUser>
  {
    if |ss| == 0 then [] else TargetUsers(ss[..|ss| - 1]) + [TargetUser(ss[|ss| - 1])]
  }

  /** `pgoConfig.users`: one user per target in catalog order, then the `postgres` user. */
  function PgoUsers(cs: seq<GitOpsConfig>): seq<PgUser>
  {
    TargetUsers(Slots(cs)) + [PgUser("postgres", [])]
  }

  lemma {:induction false} TargetUsersShape(ss: seq<Slot>)
    ensures |TargetUsers(ss)| == |ss|
    ensures forall k :: 0 <= k < |ss| ==> TargetUsers(ss)[k] == TargetUser(ss[k])
  {
    if |ss| > 0 {
      TargetUsersShape(ss[..|ss| - 1]);
    }
  }

  /**
   * The user list has one entry per target and one more; entry `k` is the
   * user of the `k`-th target, owning exactly its own database, and the last
   * is `postgres` with no database. No target user is called `postgres`,
   * since a target namespace always contains a hyphen.
   */
  lemma PgoUsersShape(cs: seq<GitOpsConfig>)
    ensures |PgoUsers(cs)| == |Slots(cs)| + 1 == TargetCount(cs) + 1
    ensures PgoUsers(cs)[TargetCount(cs)] == PgUser("postgres", [])
    ensures forall k :: 0 <= k < |Slots(cs)| ==>
      && PgoUsers(cs)[k].name == SlotNamespace(Slots(cs)[k])
      && PgoUsers(cs)[k].databases == [PgoUsers(cs)[k].name]
      && PgoUsers(cs)[k].name != "postgres"
  {
    SlotsCount(cs);
    TargetUsersShape(Slots(cs));
    forall k | 0 <= k < |Slots(cs)|
      ensures PgoUsers(cs)[k].name != "postgres"
    {
      var sl := Slots(cs)[k];
      assert PgoUsers(cs)[k].name == sl.config.name + "-" + sl.target.name;
      assert PgoUsers(cs)[k].name[|sl.config.name|] == '-';
      assert '-' !in "postgres";
    }
  }

  /** Every stage deploys into a namespace that has a Postgres user, and a database, of that name. */
  lemma StageHasUser(cs: seq<GitOpsConfig>, s: Stage)
    requires s in Plan(cs)
    ensures PgUser(s.targetNamespace, [s.targetNamespace]) in PgoUsers(cs)
  {
    PlanMember(cs, s);
    var sl :| sl in Slots(cs) && s in TargetStages(sl);
    TargetStageFields(sl, s);
    var k :| 0 <= k < |Slots(cs)| && Slots(cs)[k] == sl;
    SlotsCount(cs);
    PgoUsersShape(cs);
    TargetUsersShape(Slots(cs));
    assert PgoUsers(cs)[k] == TargetUser(sl);
  }

  // ----- Copies of the database secrets -----

  /** The name the operator gives the secret of a user. */
  function PgUserSecretName(user: string): string { PgoClusterName + "-pguser-" + user }

  /** The `namespace/name` reference of that secret in the operator's namespace. */
  function DbSecretRef(user: string): string { PgoNamespace + "/" + PgUserSecretName(user) }

  /** `Secret.get` of the operator's secret for the target's user. */
  function DbSecretReadOf(sl: Slot): Resource
  {
    SecretRead("pgo-secret-" + SlotNamespace(sl), DbSecretRef(SlotNamespace(sl)))
  }

  /** The copy: same name and data, in the target's own namespace. */
  function ClonedDbSecretOf(sl: Slot): Resource
  {
    var n := SlotNamespace(sl);
    Secret("cloned-pgo-secret-" + n, PgUserSecretName(n), n, CopiedFrom(DbSecretRef(n)))
  }

  function CloneResources(sl: Slot): seq<Resource> { [DbSecretReadOf(sl), ClonedDbSecretOf(sl)] }

  /** What the clone loop declares for a sequence of targets, in order. */
  function ClonesOf(ss: seq<Slot>): seq<Resource>
  {
    if |ss| == 0 then [] else ClonesOf(ss[..|ss| - 1]) + CloneResources(ss[|ss| - 1])
  }

  /** The body of the inner `targets.map`: read the operator's secret and copy it. */
  method CloneDbSecret(reg: Registry, sl: Slot)
    modifies reg
    ensures reg.resources == old(reg.resources) + CloneResources(sl)
  {
    var name := SlotNamespace(sl);
    var dbSecret := SecretRead("pgo-secret-" + name, DbSecretRef(name));
    reg.Register(dbSecret);
    reg.Register(Secret("cloned-pgo-secret-" + name, PgUserSecretName(name), name, CopiedFrom(dbSecret.ref)));
  }

  /** The inner loop over one configuration's targets. */
  method CloneConfigSecrets(reg: Registry, slots: seq<Slot>)
    modifies reg
    ensures reg.resources == old(reg.resources) + ClonesOf(slots)
  {
    for j := 0 to |slots|
      invariant reg.resources == old(reg.resources) + ClonesOf(slots[..j])
    {
      CloneDbSecret(reg, slots[j]);
      ClonesStep(old(reg.resources), slots, j);
    }
    assert slots[..|slots|] == slots;
  }

  /** The clone loop of ops/infra/index.ts: every target of every configuration, in catalog order. */
  method CloneDbSecrets(reg: Registry, cs: seq<GitOpsConfig>)
    modifies reg
    ensures reg.resources == old(reg.resources) + ClonesOf(Slots(cs))
  {
    for i := 0 to |cs|
      invariant reg.resources == old(reg.resources) + ClonesOf(Slots(cs[..i]))
    {
      CloneConfigSecrets(reg, ConfigSlots(cs[i]));
      ClonesConfigStep(old(reg.resources), cs, i);
    }
    assert cs[..|cs|] == cs;
  }

  lemma ClonesStep(before: seq<Resource>, ss: seq<Slot>, j: nat)
    requires j < |ss|
    ensures before + ClonesOf(ss[..j + 1]) == (before + ClonesOf(ss[..j])) + CloneResources(ss[j])
  {
    assert ss[..j + 1][..j] == ss[..j];
    assert before + (ClonesOf(ss[..j]) + CloneResources(ss[j])) == (before + ClonesOf(ss[..j])) + CloneResources(ss[j]);
  }

  lemma ClonesConfigStep(before: seq<Resource>, cs: seq<GitOpsConfig>, i: nat)
    requires i < |cs|
    ensures before + ClonesOf(Slots(cs[..i + 1])) == (before + ClonesOf(Slots(cs[..i]))) + ClonesOf(ConfigSlots(cs[i]))
  {
    assert cs[..i + 1][..i] == cs[..i];
    ClonesAppend(Slots(cs[..i]), ConfigSlots(cs[i]));
    assert before + (ClonesOf(Slots(cs[..i])) + ClonesOf(ConfigSlots(cs[i]))) == (before + ClonesOf(Slots(cs[..i]))) + ClonesOf(ConfigSlots(cs[i]));
  }

  lemma {:induction false} ClonesAppend(a: seq<Slot>, b: seq<Slot>)
    ensures ClonesOf(a + b) == ClonesOf(a) + ClonesOf(b)
    decreases |b|
  {
    if |b| > 0 {
      var b' := b[..|b| - 1];
      assert (a + b)[..|a + b| - 1] == a + b';
      assert (a + b)[|a + b| - 1] == b[|b| - 1];
      ClonesAppend(a, b');
      assert ClonesOf(a) + (ClonesOf(b') + CloneResources(b[|b| - 1])) == (ClonesOf(a) + ClonesOf(b')) + CloneResources(b[|b| - 1]);
    } else {
      assert a + b == a;
    }
  }

  lemma {:induction false} ClonesMember(ss: seq<Slot>, sl: Slot)
    requires sl in ss
    ensures DbSecretReadOf(sl) in ClonesOf(ss) && ClonedDbSecretOf(sl) in ClonesOf(ss)
  {
    var init := ss[..|ss| - 1];
    if sl != ss[|ss| - 1] {
      assert sl in init by {
        var k :| 0 <= k < |ss| && ss[k] == sl;
        assert init[k] == sl;
      }
      ClonesMember(init, sl);
    }
  }

  /**
   * For every target the loop reads the secret the operator generates for the
   * target's Postgres user and declares a copy with the same name and data in
   * the namespace every stage of that target deploys into.
   */
  lemma CloneReachesTarget(cs: seq<GitOpsConfig>, sl: Slot)
    requires sl in Slots(cs)
    ensures DbSecretReadOf(sl) in ClonesOf(Slots(cs)) && ClonedDbSecretOf(sl) in ClonesOf(Slots(cs))
    ensures TargetUser(sl) in PgoUsers(cs)
    ensures DbSecretReadOf(sl).ref == PgoNamespace + "/" + PgUserSecretName(TargetUser(sl).name)
    ensures ClonedDbSecretOf(sl).name == PgUserSecretName(TargetUser(sl).name)
    ensures ClonedDbSecretOf(sl).data == CopiedFrom(DbSecretReadOf(sl).ref)
    ensures forall s :: s in TargetStages(sl) ==> ClonedDbSecretOf(sl).namespace == s.targetNamespace
  {
    ClonesMember(Slots(cs), sl);
    var k :| 0 <= k < |Slots(cs)| && Slots(cs)[k] == sl;
    SlotsCount(cs);
    PgoUsersShape(cs);
    TargetUsersShape(Slots(cs));
    assert PgoUsers(cs)[k] == TargetUser(sl);
    forall s | s in TargetStages(sl) ensures ClonedDbSecretOf(sl).namespace == s.targetNamespace {
      TargetStageFields(sl, s);
    }
  }

  /** When every URL parses, the namespace each copy lands in is one the program declares. */
  lemma CloneNamespaceDeclared(cs: seq<GitOpsConfig>, sl: Slot, pool: string, region: string)
    requires AllParse(cs) && sl in Slots(cs)
    ensures ClonedDbSecretOf(sl).namespace in NamespaceNames(ReposResources(cs, pool, region))
  {
    DeclaredPlan(cs, pool, region);
    SlotNamespacesMember(Slots(cs), sl);
  }

  // ----- Workload identity of the operator's service accounts -----

  /** The Kubernetes service accounts of the cluster, by suffix. */
  const PgoAccountSuffixes: seq<string> := ["instance", "pgbackrest"]

  /** The logical name of the backup service account. */
  const PgoBackupAccount := "pgo-backup-sa"

  /** The cluster's workload-identity pool. */
  function WorkloadPool(project: string): string { project + ".svc.id.goog" }

  /** The IAM member naming the Kubernetes service account `pgo-cluster-<suffix>` of the operator's namespace. */
  function PgoWorkloadMember(project: string, suffix: string): string
  {
    "serviceAccount:" + WorkloadPool(project) + "[" + PgoNamespace + "/" + PgoClusterName + "-" + suffix + "]"
  }

  function PgoBindingOf(project: string, suffix: string): Resource
  {
    IamMember("pgo-backup-sa-wi-iam-binding-" + suffix, PgoBackupAccount, WorkloadIdentityUserRole,
      PgoWorkloadMember(project, suffix))
  }

  function PgoBindings(project: string, suffixes: seq<string>): seq<Resource>
  {
    if |suffixes| == 0 then []
    else PgoBindings(project, suffixes[..|suffixes| - 1]) + [PgoBindingOf(project, suffixes[|suffixes| - 1])]
  }

  /** `pgoKSASuffix.map`: one binding per suffix, in order. */
  method BindPgoAccounts(reg: Registry, project: string, suffixes: seq<string>)
    modifies reg
    ensures reg.resources == old(reg.resources) + PgoBindings(project, suffixes)
  {
    for i := 0 to |suffixes|
      invariant reg.resources == old(reg.resources) + PgoBindings(project, suffixes[..i])
    {
      reg.Register(PgoBindingOf(project, suffixes[i]));
      assert suffixes[..i + 1][..i] == suffixes[..i];
      assert old(reg.resources) + (PgoBindings(project, suffixes[..i]) + [PgoBindingOf(project, suffixes[i])]) == (old(reg.resources) + PgoBindings(project, suffixes[..i])) + [PgoBindingOf(project, suffixes[i])];
    }
    assert suffixes[..|suffixes|] == suffixes;
  }

  /** The member string is `serviceAccount:<pool>[<namespace>/<account>]` and determines the suffix. */
  lemma PgoMemberInjective(project: string, x: string, y: string)
    requires PgoWorkloadMember(project, x) == PgoWorkloadMember(project, y)
    ensures x == y
  {
    var p := "serviceAccount:" + WorkloadPool(project) + "[" + PgoNamespace + "/" + PgoClusterName + "-";
    assert PgoWorkloadMember(project, x) == p + (x + "]");
    assert PgoWorkloadMember(project, y) == p + (y + "]");
    assert x + "]" == (p + (x + "]"))[|p|..];
    assert x == (x + "]")[..|x|];
    assert y == (y + "]")[..|y|];
  }

  /** The bindings for the cluster's two accounts, `instance` and `pgbackrest`, in that order. */
  lemma PgoBindingsOrder(project: string)
    ensures PgoBindings(project, PgoAccountSuffixes)
         == [PgoBindingOf(project, "instance"), PgoBindingOf(project, "pgbackrest")]
  {
    var ss := PgoAccountSuffixes;
    assert ss[..1] == ["instance"] && ss[..1][..0] == [];
    assert PgoBindings(project, ss[..1]) == PgoBindings(project, []) + [PgoBindingOf(project, "instance")];
    assert PgoBindings(project, ss) == PgoBindings(project, ss[..1]) + [PgoBindingOf(project, "pgbackrest")];
  }

  /** Bindings for distinct suffixes have distinct logical names and distinct members. */
  lemma PgoBindingsDistinct(project: string, x: string, y: string)
    requires x != y
    ensures PgoBindingOf(project, x).id != PgoBindingOf(project, y).id
    ensures PgoBindingOf(project, x).member != PgoBindingOf(project, y).member
  {
    var a := "pgo-backup-sa-wi-iam-binding-";
    assert (a + x)[|a|..] == x && (a + y)[|a|..] == y;
    if PgoWorkloadMember(project, x) == PgoWorkloadMember(project, y) {
      PgoMemberInjective(project, x, y);
    }
  }

  // ----- The whole program -----

  /** The controller requests of the program's Flux release. */
  const ControllerRequests := Requests("50m", "48Mi")

  function PgoNamespaceOf(): Resource { Namespace("pgo-namespace", PgoNamespace) }

  /**
   * The catalog-driven part of ops/infra/index.ts in program order: the Flux
   * namespace and release, the operator's namespace, the secret copies, the
   * workload-identity bindings, then the per-configuration loop shared with
   * `createFlux2Resources`.
   */
  method Deploy(reg: Registry, cs: seq<GitOpsConfig>, project: string, pool: string, region: string)
    returns (registries: Option<seq<Resource>>)
    modifies reg
    ensures reg.resources == old(reg.resources)
      + [Flux2NamespaceOf(), Flux2ReleaseOf(ValuesFor(ControllerNames, ControllerRequests)), PgoNamespaceOf()]
      + ClonesOf(Slots(cs))
      + PgoBindings(project, PgoAccountSuffixes)
      + ReposResources(cs[..ValidPrefix(cs)], pool, region)
    ensures registries.Some? <==> ValidPrefix(cs) == |cs|
    ensures registries.Some? ==> registries.value == ArtifactRegistries(cs, region)
  {
    reg.Register(Flux2NamespaceOf());
    var values := ControllerValues(ControllerNames, ControllerRequests);
    reg.Register(Flux2ReleaseOf(values));
    reg.Register(PgoNamespaceOf());
    assert reg.resources == old(reg.resources) + [Flux2NamespaceOf(), Flux2ReleaseOf(values), PgoNamespaceOf()];
    CloneDbSecrets(reg, cs);
    BindPgoAccounts(reg, project, PgoAccountSuffixes);
    registries := RegisterRepos(reg, cs, pool, region);
  }
}
