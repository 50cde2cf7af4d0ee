# GitOps stage plan of cheap-k8s/example, in Dafny

This project models the part of the `cheap-k8s/example` infrastructure code that turns
its GitOps catalog into Flux objects. The infrastructure code is a Pulumi program in
TypeScript. Each catalog entry names a configuration (a Git repository with a URL, a
branch, a credential and a list of targets). For each entry, `createFlux2Resources`
(ops/infra/src/flux.ts) declares the following, in order:

- a workload-identity binding built from the repository path;
- an artifact registry;
- the Git secret and the GitRepository source;
- per target: a namespace, then up to three Kustomization stages.

The stages are `pre` (forced, no dependency), `apply` and `post` (forced, depends on
`apply`). The `apply` stage always depends on `<name>-pre`, even when `pre` is
disabled. The model keeps that reference unresolved. It proves that the reference
resolves within its own target exactly when `pre` is enabled, for any names. Across
the whole plan it proves the same only when repository and target names contain no
hyphen and no two targets share a stage name. `Stages.CrossTargetEdgeWithHyphens`
shows that this premise is needed: with hyphenated names, the reference of a target
with `pre` disabled can resolve to another target's stage.

The top-level program (ops/infra/index.ts) repeats the same loop inline, and the model
uses that one definition for both copies. Around the loop, index.ts also derives:

- the Postgres users;
- per-target copies of the operator's database secrets;
- the workload-identity members of the operator's accounts;
- a Flux release with different resource requests.

The browser client (dev/src/client/env.ts) picks its API host from the dev flag and the
page's hostname.

Modules:

- `Wrappers`: the `Option` type.
- `Text`:
  - `includes`, as a search with a reference definition;
  - `slice(0, -1)`;
  - the first position of one of a set of characters;
  - unique splitting at a hyphen.
- `Catalog`: the configuration records, and the order in which nested `map`s visit targets.
- `Stages`: the stage plan as pure functions, with its properties:
  - shape;
  - settings;
  - dependency wiring;
  - acyclicity;
  - independence from step paths;
  - no dependency edges between targets, when names are hyphen-free (a counterexample shows this condition is needed).
- `Resources`:
  - the declared objects;
  - a `Registry` class whose `resources` sequence records every declaration in program order.
- `Flux`: `createFlux2Resources` as methods on the registry:
  - the controller-values `reduce` as a loop;
  - URL pathname extraction;
  - the per-configuration loop and what it declares.
- `Infra`:
  - the example catalogs;
  - `pgoConfig.users`;
  - the secret-clone loop;
  - the operator's workload-identity bindings;
  - the catalog-driven registration order of index.ts.
- `Env`: `getEnvVars`.

`new URL(...)` throws on a URL it cannot parse. The model returns `None` there.
Registration stops at the first configuration whose URL does not parse, and the
registries are returned only when the whole catalog parsed.

The two copies of the Flux release differ. flux.ts requests cpu and memory `"0"`;
index.ts requests `"50m"` and `"48Mi"`. Both are modelled: `Flux.CreateFlux2Resources`
and `Infra.Deploy`.

## Model

| member | source | states |
|---|---|---|
| Text.Contains | dev/src/client/env.ts:15 | `includes` is true exactly when the pattern occurs at some position of the text |
| Text.DropLast | ops/infra/src/flux.ts:136 | `slice(0, -1)` yields "" for "", and otherwise the text without its last character |
| Text.AbsentChar | dev/src/client/env.ts:15 | a pattern holding a character the text lacks does not occur in it |
| Catalog.SlotsMember | ops/infra/src/flux.ts:135-191 | the nested loops visit a (configuration, target) pair exactly when the target belongs to one of the configurations |
| Catalog.SlotsCount | ops/infra/src/flux.ts:135-191 | the nested loops visit as many slots as the catalog has targets |
| Catalog.SlotTargetOwned | ops/infra/src/flux.ts:135-191 | every visited slot's configuration is in the catalog, and its target is one of that configuration's targets |
| Stages.TargetStagesShape | ops/infra/src/flux.ts:208-301 | a target yields 1 to 3 stages, in the order pre, apply, post; apply is always present, pre exactly when `step.pre.enable`, post exactly when `step.post.enable` |
| Stages.TargetStageFields | ops/infra/src/flux.ts:192-197 | every stage is named `gitops-{repo}-{target}` plus its kind's suffix, and reads the target path plus its kind's sub-directory; it deploys into `{repo}-{target}`, lives in `flux2` and reads the repository's GitRepository |
| Stages.StageNamesDistinct | ops/infra/src/flux.ts:192-195 | the three stage names of one target are pairwise distinct |
| Stages.TargetDependencies | ops/infra/src/flux.ts:247-251 | pre has no dependency, apply depends on `-pre` only, post depends on apply only; the pre reference resolves within the target exactly when pre is enabled, and post's always resolves |
| Stages.PlanMember | ops/infra/src/flux.ts:135-302 | a stage is in the plan exactly when it is a stage of some visited target |
| Stages.PlanSize | ops/infra/src/flux.ts:191-302 | the plan has between one and three stages per target |
| Stages.PlanWithoutSteps | ops/infra/src/flux.ts:208-268 | with pre and post disabled everywhere, the plan is one apply stage per target |
| Stages.PlanSettings | ops/infra/src/flux.ts:216-224 | every stage has namespace `flux2`, interval `60m`, timeout `3m`, retry `1m`, wait and prune; force is set exactly on pre and post |
| Stages.PlanStageShape | ops/infra/src/flux.ts:247-283 | in any plan, pre stages depend on nothing, apply on its own name plus `-pre`, and post on the name it extends with `-post` |
| Stages.PlanRanked | ops/infra/src/flux.ts:247-283 | every dependency edge between stages of the plan strictly decreases a rank |
| Stages.NoDependencyCycle | ops/infra/src/flux.ts:247-283 | no dependency path of two or more stages returns to its start, for every catalog |
| Stages.PlanIgnoresStepPaths | ops/infra/src/flux.ts:5-17 | the declared `step.pre.path`/`step.post.path` never influence the plan |
| Stages.StageNameSplit | ops/infra/src/flux.ts:192-195 | a stage name is the prefix, the repository, a hyphen, the target and the kind suffix |
| Stages.NameInjective | ops/infra/src/flux.ts:192 | with hyphen-free names, a stage name determines its repository, target and suffix |
| Stages.NoCrossTargetEdges | ops/infra/src/flux.ts:247-283 | with hyphen-free names, every dependency edge stays within one target |
| Stages.PreReferenceResolves | ops/infra/src/flux.ts:208-251 | with hyphen-free, unique names, the plan holds a stage named like apply's dependency exactly when pre is enabled |
| Stages.CrossTargetEdgeWithHyphens | ops/infra/src/flux.ts:192-251 | with a target named `b-pre`, the apply stage of target `b` depends on a stage of another target |
| Resources.Registry.Register | ops/infra/src/flux.ts:198-206 | one declaration appends one object to the registry and changes nothing else |
| Flux.ControllerValues | ops/infra/src/flux.ts:67-84 | the `reduce` loop yields the map from every listed controller to the given requests |
| Flux.ControllerValuesShape | ops/infra/src/flux.ts:67-84 | the values hold exactly the six controllers, each with the same requests |
| Flux.UrlPathname | ops/infra/src/flux.ts:136 | a pathname, when there is one, starts with `/` |
| Flux.RepositoryPath | ops/infra/src/flux.ts:136 | the repository path exists exactly when the URL parses, and is the pathname without its last character |
| Flux.PathnameOfUrl | ops/infra/src/flux.ts:136 | for `scheme://host path query`, the pathname is the path (or `/`), and the repository path drops its last character |
| Flux.ExampleRepositoryPath | ops/infra/index.ts:28 | the catalog URL `https://github.com/cheap-k8s/example/` gives the repository path `/cheap-k8s/example` |
| Flux.ArtifactRegistries | ops/infra/src/flux.ts:144-152 | the returned list holds one artifact registry per configuration, in order |
| Flux.ValidPrefix | ops/infra/src/flux.ts:135-136 | registration covers the longest prefix of configurations whose URLs parse |
| Flux.RegisterTarget | ops/infra/src/flux.ts:197-301 | one target declares its namespace, then pre if enabled, apply, then post if enabled |
| Flux.RegisterSlots | ops/infra/src/flux.ts:191-302 | the targets of a configuration are declared target by target, in order |
| Flux.RegisterHeader | ops/infra/src/flux.ts:137-189 | the workload-identity binding, the artifact registry, the Git secret and the GitRepository, in that order; returns the registry |
| Flux.RegisterRepo | ops/infra/src/flux.ts:135-305 | returns the artifact registry exactly when the URL parses; otherwise declares nothing |
| Flux.RegisterRepos | ops/infra/src/flux.ts:135-305 | declares the valid prefix in order; returns the registries exactly when every URL parses |
| Flux.DeclaredPlan | ops/infra/src/flux.ts:198-301 | when all URLs parse, the declared Kustomizations are exactly the plan, in order, and the declared namespaces exactly the target namespaces |
| Flux.RepoDeclared | ops/infra/src/flux.ts:135-305 | everything one configuration declares is among what the loop declares |
| Flux.StageNamespaceDeclared | ops/infra/src/flux.ts:198-226 | every stage's target namespace is declared |
| Flux.RepoSources | ops/infra/src/flux.ts:154-189 | a parsed configuration declares its GitRepository and the secret it reads, both in `flux2` |
| Flux.StageSourceDeclared | ops/infra/src/flux.ts:227-231 | every stage's source is a declared GitRepository whose secret is declared beside it |
| Flux.ConfigSourcesDeclared | ops/infra/src/flux.ts:154-189 | the GitRepository and secret of every visited configuration are declared |
| Flux.CreateFlux2Resources | ops/infra/src/flux.ts:41-305 | declares the Flux namespace, the release with requests `"0"`, then the per-configuration loop; returns the registries exactly when every URL parses |
| Infra.ClientHostServed | ops/infra/index.ts:13-18 | outside dev builds, the client's API host is one of the served domains |
| Infra.CatalogsAgree | ops/infra/src/index.ts:27-69 | the catalog with step paths equals the catalog of index.ts once the paths are erased, and both yield the same plan |
| Infra.ExampleStages | ops/infra/index.ts:20-58 | the example plan is pre, apply and post of staging, then of production |
| Infra.ExamplePlan | ops/infra/index.ts:20-58 | the example yields six stages with the expected names; they deploy into `example-staging` and `example-production` |
| Infra.ExampleDeclared | ops/infra/index.ts:20-58 | the example declares both target namespaces, and its URL parses |
| Infra.PgoUsersShape | ops/infra/index.ts:60-74 | one user per target, in catalog order, named after the target namespace and owning that database only; then `postgres` with no database, whose name no target user takes |
| Infra.StageHasUser | ops/infra/index.ts:60-74 | every stage's target namespace has a Postgres user and a database of that name |
| Infra.CloneDbSecret | ops/infra/index.ts:442-463 | reads the operator's secret of the target's user, then declares its copy |
| Infra.CloneConfigSecrets | ops/infra/index.ts:441-464 | copies the secrets of one configuration's targets, in order |
| Infra.CloneDbSecrets | ops/infra/index.ts:440-465 | copies the secrets of every target of the catalog, in order |
| Infra.CloneReachesTarget | ops/infra/index.ts:440-465 | each target's copy has the same name and data as the operator's secret of the target's user; it lands in the namespace the target's stages deploy into |
| Infra.CloneNamespaceDeclared | ops/infra/index.ts:454-456 | when all URLs parse, every copy's namespace is declared |
| Infra.BindPgoAccounts | ops/infra/index.ts:467-475 | one binding per suffix, in order |
| Infra.PgoMemberInjective | ops/infra/index.ts:473 | the member string determines the account suffix |
| Infra.PgoBindingsOrder | ops/infra/index.ts:467 | the bindings are those for `instance` and then `pgbackrest` |
| Infra.PgoBindingsDistinct | ops/infra/index.ts:469-474 | bindings for distinct suffixes differ in logical name and in member |
| Infra.Deploy | ops/infra/index.ts:289-690 | declares the Flux namespace and the release with requests `50m`/`48Mi`, then the operator namespace, the secret copies, the bindings and the per-configuration loop |
| Env.GetEnvVars | dev/src/client/env.ts:6-26 | port 3000; a dev build gets `localhost`; otherwise the staging API exactly when the hostname contains `staging`, and the production API exactly when it does not |
| Env.StagingFrontEnd | dev/src/client/env.ts:15-21 | the page at `staging.poc.epdndo.com` talks to `api-staging.poc.epdndo.com` |
| Env.ProductionFrontEnd | dev/src/client/env.ts:22-25 | the page at `production.poc.epdndo.com` talks to `api-production.poc.epdndo.com` |

## Left out

- Cloud declarations are not modelled. This covers the GKE cluster, network, firewalls, node pools, Caddy VM, ingress, descheduler, deployment patches and nginx release. It also covers the service accounts, the role bindings of both copies, the workload-identity pool and its provider, the backup bucket, the operator's kustomize install and the PostgresCluster resource. They are constant records with no logic.
- Pulumi `Output` values are parameters or stand-ins. The pool name, region and project are parameters. The operator's namespace and cluster names are the constants they resolve to (`postgres-operator`, `pgo-cluster`). The service accounts are different: `Flux.ArAdminAccount` and `Infra.PgoBackupAccount` hold the accounts' logical names as stand-ins for `arAdminSA.name` and `pgoBackupSA.name`. Those resolve to the accounts' full resource names, which derive from the cluster's name and are not modelled.
- Resources.Registry.Register: registering always succeeds. Pulumi rejects a second resource with the same type and logical name, and the model does not. For example, repository `a-b` with target `c` and repository `a` with target `b-c` both declare `a-b-c-namespace`: Pulumi stops there, while the model goes on declaring.
- Resources do not carry provider options, `dependsOn` resource options, `apiVersion`/`kind` strings or display names. Each object keeps the fields the code derives.
- Flux.UrlPathname: the WHATWG URL parser is not modelled. The grammar is `scheme://host[path][?query|#fragment]`, and percent-encoding, ports, credentials, IPv6 hosts, case folding and dot segments are ignored. The mismatch goes both ways:
  - A URL outside this form is treated as one that throws.
  - Some URLs inside the form are parsed by the model although `new URL` rejects them, for example a scheme that starts with a digit (`1http://h/x/`) or a host with a forbidden code point such as a space (`https://a b/x/`). On those URLs the source throws at flux.ts:136 and registration stops there, while the model goes on declaring.
- Flux.CreateFlux2Resources: the returned record also holds the Flux namespace, the release, the service account `arAdminSA` and the pool's GitHub provider `arAdminWIPGithubProvider`. The model returns only the registries.
- Infra.Deploy: declares, in order:
  - the Flux namespace and release;
  - `pgo-namespace`;
  - the secret copies;
  - the two `pgo-backup-sa-wi-iam-binding-*` bindings;
  - the per-configuration loop.

  It leaves out the other declarations of ops/infra/index.ts and their positions in the order: `pgoBackupSA` and its role binding, the backup bucket, the `pgo` kustomize install, `pgoCluster`, `arAdminSA` and its role binding, the workload-identity pool and its provider, everything before line 289 and everything after line 690.
- `console.log(pgoConfig)` (ops/infra/index.ts:81) is console output and is not modelled.
- Reconciliation by Flux, Kubernetes, the Postgres operator or the cloud APIs is not modelled. Neither is concurrent creation of resources. Order here means declaration order only.
- Env.GetEnvVars: `import.meta.env.DEV` and `location.hostname` are parameters. The browser and the build tool are not modelled.
- The counter application is not part of this model. That covers dev/src/server, App.tsx, main.tsx and trcp.ts.
