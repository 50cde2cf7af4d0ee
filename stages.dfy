/**
 * The stage plan of ops/infra/src/flux.ts (lines 191-301, repeated inline in
 * ops/infra/index.ts, lines 576-687): every target of every repository becomes
 * up to three Flux `Kustomization` stages, `pre`, `apply` and `post`, wired by
 * `dependsOn` references by name.
 */
module Stages {
  import opened Wrappers
  import opened Catalog
  import Text

  /** The namespace that holds the Flux controllers and every Flux object the program declares. */
  const Flux2Namespace := "flux2"

  const StageInterval := "60m"
  const StageTimeout := "3m"
  const StageRetryInterval := "1m"

  datatype StageKind = Pre | Apply | Post

  /** The `sourceRef` of a Kustomization: the GitRepository it reads manifests from. */
  datatype SourceRef = SourceRef(kind: string, name: string, namespace: string)

  /** The fields of one Kustomization object. Absent `force` (the apply stage) reads as false. */
  datatype Stage = Stage(
    kind: StageKind,
    name: string,
    namespace: string,
    path: string,
    targetNamespace: string,
    dependsOn: seq<string>,
    force: bool,
    wait: bool,
    prune: bool,
    interval: string,
    timeout: string,
    retryInterval: string,
    sourceRef: SourceRef)

  function GitSecretName(repo: string): string { "git-secret-" + repo }

  function GitRepositoryName(repo: string): string { "git-repository-" + repo }

  /** The name of a target's apply stage. */
  function GitopsName(repo: string, target: string): string { "gitops-" + repo + "-" + target }

  function PreName(repo: string, target: string): string { GitopsName(repo, target) + "-pre" }

  function PostName(repo: string, target: string): string { GitopsName(repo, target) + "-post" }

  /** The namespace a target deploys into. */
  function TargetNamespace(repo: string, target: string): string { repo + "-" + target }

  function SourceRefOf(c: GitOpsConfig): SourceRef
  {
    SourceRef("GitRepository", GitRepositoryName(c.name), Flux2Namespace)
  }

  function SlotName(sl: Slot): string { GitopsName(sl.config.name, sl.target.name) }

  function SlotNamespace(sl: Slot): string { TargetNamespace(sl.config.name, sl.target.name) }

  function PreStage(sl: Slot): Stage
  {
    Stage(Pre, PreName(sl.config.name, sl.target.name), Flux2Namespace, sl.target.path + "/pre",
          SlotNamespace(sl), [], true, true, true,
          StageInterval, StageTimeout, StageRetryInterval, SourceRefOf(sl.config))
  }

  /** The apply stage names the pre stage as its dependency whether or not pre is enabled. */
  function ApplyStage(sl: Slot): Stage
  {
    Stage(Apply, SlotName(sl), Flux2Namespace, sl.target.path,
          SlotNamespace(sl), [PreName(sl.config.name, sl.target.name)], false, true, true,
          StageInterval, StageTimeout, StageRetryInterval, SourceRefOf(sl.config))
  }

  function PostStage(sl: Slot): Stage
  {
    Stage(Post, PostName(sl.config.name, sl.target.name), Flux2Namespace, sl.target.path + "/post",
          SlotNamespace(sl), [SlotName(sl)], true, true, true,
          StageInterval, StageTimeout, StageRetryInterval, SourceRefOf(sl.config))
  }

  /** The stages of one target, in the order the source declares them. */
  function TargetStages(sl: Slot): seq<Stage>
  {
    (if sl.target.pre.enable then [PreStage(sl)] else [])
    + [ApplyStage(sl)]
    + (if sl.target.post.enable then [PostStage(sl)] else [])
  }

  /** The stages of a sequence of slots, concatenated in order. */
  function StagesOf(ss: seq<Slot>): seq<Stage>
  {
    if |ss| == 0 then [] else StagesOf(ss[..|ss| - 1]) + TargetStages(ss[|ss| - 1])
  }

  /** The whole stage plan of a catalog. */
  function Plan(cs: seq<GitOpsConfig>): seq<Stage>
  {
    StagesOf(Slots(cs))
  }

  // ----- Reference descriptions of a stage by its kind -----

  function KindOrder(k: StageKind): nat
  {
    match k
    case Pre => 0
    case Apply => 1
    case Post => 2
  }

  function NameSuffix(k: StageKind): string
  {
    match k
    case Pre => "-pre"
    case Apply => ""
    case Post => "-post"
  }

  function PathSuffix(k: StageKind): string
  {
    match k
    case Pre => "/pre"
    case Apply => ""
    case Post => "/post"
  }

  function Enabled(t: Target, k: StageKind): bool
  {
    match k
    case Pre => t.pre.enable
    case Apply => true
    case Post => t.post.enable
  }

  // ----- One target -----

  /**
   * A target yields one stage per enabled kind, so one to three stages: the
   * apply stage always, pre exactly when `step.pre.enable`, post exactly when
   * `step.post.enable`, declared in the order pre, apply, post.
   */
  lemma TargetStagesShape(sl: Slot)
    ensures var st := TargetStages(sl);
      && 1 <= |st| <= 3
      && |st| == 1 + (if sl.target.pre.enable then 1 else 0) + (if sl.target.post.enable then 1 else 0)
      && (forall k :: (exists i :: 0 <= i < |st| && st[i].kind == k) <==> Enabled(sl.target, k))
      && (forall i, j :: 0 <= i < j < |st| ==> KindOrder(st[i].kind) < KindOrder(st[j].kind))
  {
    var st := TargetStages(sl);
    forall k ensures (exists i :: 0 <= i < |st| && st[i].kind == k) <==> Enabled(sl.target, k) {
      if Enabled(sl.target, k) {
        var i := if k == Pre then 0
                 else if k == Apply then (if sl.target.pre.enable then 1 else 0)
                 else |st| - 1;
        assert st[i].kind == k;
      }
    }
  }

  /**
   * Every stage of a target is named `gitops-{repo}-{target}` plus its kind's
   * suffix, reads the target's path plus its kind's sub-directory, deploys into
   * `{repo}-{target}`, reads the repository's GitRepository, and carries the
   * shared settings; `force` is set on pre and post only.
   */
  lemma TargetStageFields(sl: Slot, s: Stage)
    requires s in TargetStages(sl)
    ensures s.name == GitopsName(sl.config.name, sl.target.name) + NameSuffix(s.kind)
    ensures s.path == sl.target.path + PathSuffix(s.kind)
    ensures s.targetNamespace == TargetNamespace(sl.config.name, sl.target.name)
    ensures s.sourceRef == SourceRef("GitRepository", GitRepositoryName(sl.config.name), Flux2Namespace)
    ensures s.namespace == Flux2Namespace
    ensures s.interval == "60m" && s.timeout == "3m" && s.retryInterval == "1m"
    ensures s.wait && s.prune
    ensures s.force <==> s.kind != Apply
    ensures Enabled(sl.target, s.kind)
  {
    assert sl.target.path + "" == sl.target.path;
  }

  lemma StageNamesDistinct(repo: string, target: string)
    ensures GitopsName(repo, target) != PreName(repo, target)
    ensures GitopsName(repo, target) != PostName(repo, target)
    ensures PreName(repo, target) != PostName(repo, target)
  {
    var g := GitopsName(repo, target);
    assert |PreName(repo, target)| == |g| + 4;
    assert |PostName(repo, target)| == |g| + 5;
  }

  /**
   * Dependency wiring of one target: pre depends on nothing; apply depends on
   * exactly the pre stage's name, unconditionally; post depends on exactly the
   * apply stage's name. Every edge names one of the target's own stage names.
   * The apply stage's reference resolves to a stage of the target exactly when
   * pre is enabled (it dangles otherwise), while post's always resolves.
   */
  lemma {:induction false} TargetDependencies(sl: Slot)
    ensures var st := TargetStages(sl);
      var pre := PreName(sl.config.name, sl.target.name);
      var apply := GitopsName(sl.config.name, sl.target.name);
      && (forall s :: s in st && s.kind == Pre ==> s.dependsOn == [])
      && (forall s :: s in st && s.kind == Apply ==> s.dependsOn == [pre])
      && (forall s :: s in st && s.kind == Post ==> s.dependsOn == [apply])
      && (forall s, d :: s in st && d in s.dependsOn ==> d == pre || d == apply)
      && ((exists s :: s in st && s.name == pre) <==> sl.target.pre.enable)
      && (forall s :: s in st && s.kind == Post ==>
            exists a :: a in st && a.kind == Apply && a.name == s.dependsOn[0])
  {
    var st := TargetStages(sl);
    var pre := PreName(sl.config.name, sl.target.name);
    StageNamesDistinct(sl.config.name, sl.target.name);
    assert ApplyStage(sl) in st;
    if sl.target.pre.enable {
      assert PreStage(sl) in st;
    }
  }

  // ----- The whole plan -----

  lemma {:induction false} StagesOfMember(ss: seq<Slot>, s: Stage)
    ensures s in StagesOf(ss) <==> exists sl :: sl in ss && s in TargetStages(sl)
  {
    if |ss| > 0 {
      var init := ss[..|ss| - 1];
      StagesOfMember(init, s);
      assert ss == init + [ss[|ss| - 1]];
      if s in StagesOf(ss) && s !in StagesOf(init) {
        assert s in TargetStages(ss[|ss| - 1]);
      }
      if s !in StagesOf(ss) {
        forall sl | sl in ss ensures s !in TargetStages(sl) {
          if sl in init {
          } else {
            assert sl == ss[|ss| - 1];
          }
        }
      }
    }
  }

  /** A stage belongs to the plan exactly when it is a stage of some target of the catalog. */
  lemma PlanMember(cs: seq<GitOpsConfig>, s: Stage)
    ensures s in Plan(cs) <==> exists sl :: sl in Slots(cs) && s in TargetStages(sl)
  {
    StagesOfMember(Slots(cs), s);
  }

  lemma {:induction false} StagesOfAppend(a: seq<Slot>, b: seq<Slot>)
    ensures StagesOf(a + b) == StagesOf(a) + StagesOf(b)
    decreases |b|
  {
    if |b| > 0 {
      var b' := b[..|b| - 1];
      assert (a + b)[..|a + b| - 1] == a + b';
      assert (a + b)[|a + b| - 1] == b[|b| - 1];
      StagesOfAppend(a, b');
    } else {
      assert a + b == a;
    }
  }

  /** Each target contributes one to three stages, so the plan is at least and at most that large. */
  lemma {:induction false} StagesOfSize(ss: seq<Slot>)
    ensures |ss| <= |StagesOf(ss)| <= 3 * |ss|
  {
    if |ss| > 0 {
      StagesOfSize(ss[..|ss| - 1]);
      TargetStagesShape(ss[|ss| - 1]);
    }
  }

  lemma PlanSize(cs: seq<GitOpsConfig>)
    ensures TargetCount(cs) <= |Plan(cs)| <= 3 * TargetCount(cs)
  {
    StagesOfSize(Slots(cs));
    SlotsCount(cs);
  }

  /** With pre and post disabled everywhere, the plan is one dependency-carrying apply stage per target. */
  lemma {:induction false} PlanWithoutSteps(cs: seq<GitOpsConfig>)
    requires forall sl :: sl in Slots(cs) ==> !sl.target.pre.enable && !sl.target.post.enable
    ensures |Plan(cs)| == TargetCount(cs)
    ensures forall s :: s in Plan(cs) ==> s.kind == Apply
  {
    StagesOfAllApply(Slots(cs));
    SlotsCount(cs);
  }

  lemma {:induction false} StagesOfAllApply(ss: seq<Slot>)
    requires forall sl :: sl in ss ==> !sl.target.pre.enable && !sl.target.post.enable
    ensures |StagesOf(ss)| == |ss|
    ensures forall s :: s in StagesOf(ss) ==> s.kind == Apply
  {
    if |ss| > 0 {
      var init := ss[..|ss| - 1];
      assert forall sl :: sl in init ==> sl in ss;
      StagesOfAllApply(init);
    }
  }

  /** Every stage of the plan carries the shared settings; force marks exactly the pre and post stages. */
  lemma PlanSettings(cs: seq<GitOpsConfig>)
    ensures forall s :: s in Plan(cs) ==>
      && s.namespace == Flux2Namespace
      && s.interval == "60m" && s.timeout == "3m" && s.retryInterval == "1m"
      && s.wait && s.prune
      && (s.force <==> s.kind != Apply)
  {
    forall s | s in Plan(cs)
      ensures s.namespace == Flux2Namespace && s.interval == "60m" && s.timeout == "3m"
        && s.retryInterval == "1m" && s.wait && s.prune && (s.force <==> s.kind != Apply)
    {
      PlanMember(cs, s);
      var sl :| sl in Slots(cs) && s in TargetStages(sl);
      TargetStageFields(sl, s);
    }
  }

  // ----- Acyclicity -----

  function MaxNameLength(ss: seq<Stage>): (m: nat)
    ensures forall s :: s in ss ==> |s.name| <= m
  {
    if |ss| == 0 then 0
    else var m := MaxNameLength(ss[1..]);
      if |ss[0].name| > m then |ss[0].name| else m
  }

  /**
   * A ranking of stages that every dependency edge of a plan strictly
   * decreases: pre stages rank lowest, an apply stage ranks above the longer
   * names it depends on, a post stage above the shorter name it depends on.
   */
  function Rank(s: Stage, m: nat): int
  {
    match s.kind
    case Pre => 0
    case Apply => m + 1 - |s.name|
    case Post => 2 * m + 2 + |s.name|
  }

  /** Shape facts about one stage of a plan that the ranking argument needs. */
  lemma PlanStageShape(cs: seq<GitOpsConfig>, s: Stage)
    requires s in Plan(cs)
    ensures s.kind == Pre ==> s.dependsOn == []
    ensures s.kind == Apply ==> s.dependsOn == [s.name + "-pre"]
    ensures s.kind == Post ==> |s.dependsOn| == 1 && s.name == s.dependsOn[0] + "-post"
    ensures s.kind == Post ==> s.name[|s.name| - 1] == 't'
  {
    PlanMember(cs, s);
    var sl :| sl in Slots(cs) && s in TargetStages(sl);
    TargetStageFields(sl, s);
    TargetDependencies(sl);
  }

  /**
   * Every dependency edge that resolves to a stage of the plan goes strictly
   * down in rank, for every catalog, including ones whose names collide.
   */
  lemma PlanRanked(cs: seq<GitOpsConfig>, s: Stage, t: Stage)
    requires s in Plan(cs) && t in Plan(cs) && t.name in s.dependsOn
    ensures Rank(t, MaxNameLength(Plan(cs))) < Rank(s, MaxNameLength(Plan(cs)))
  {
    var m := MaxNameLength(Plan(cs));
    PlanStageShape(cs, s);
    PlanStageShape(cs, t);
    if s.kind == Apply {
      assert t.name == s.name + "-pre";
      assert t.name[|t.name| - 1] == 'e';
    }
  }

  /** A chain of stages of the plan in which each stage depends on the next. */
  ghost predicate DependencyPath(cs: seq<GitOpsConfig>, p: seq<Stage>)
  {
    && (forall k :: 0 <= k < |p| ==> p[k] in Plan(cs))
    && (forall k :: 0 <= k < |p| - 1 ==> p[k + 1].name in p[k].dependsOn)
  }

  lemma {:induction false} PathDescends(cs: seq<GitOpsConfig>, p: seq<Stage>)
    requires |p| >= 2 && DependencyPath(cs, p)
    ensures Rank(p[|p| - 1], MaxNameLength(Plan(cs))) < Rank(p[0], MaxNameLength(Plan(cs)))
  {
    PlanRanked(cs, p[0], p[1]);
    if |p| > 2 {
      PathDescends(cs, p[1..]);
    }
  }

  /** The dependency graph of every plan is acyclic: no dependency path returns to its start. */
  lemma NoDependencyCycle(cs: seq<GitOpsConfig>, p: seq<Stage>)
    requires |p| >= 2 && DependencyPath(cs, p)
    ensures p[0] != p[|p| - 1]
  {
    PathDescends(cs, p);
  }

  // ----- Step paths are never read -----

  function EraseStep(s: Step): Step { Step(s.enable, None) }

  function EraseTarget(t: Target): Target { Target(t.name, t.path, EraseStep(t.pre), EraseStep(t.post)) }

  function EraseConfig(c: GitOpsConfig): GitOpsConfig
  {
    GitOpsConfig(c.name, c.secret,
      Repository(c.repository.url, c.repository.branch,
        seq(|c.repository.targets|, j requires 0 <= j < |c.repository.targets| => EraseTarget(c.repository.targets[j]))))
  }

  /** The catalog with every declared `step.pre.path` and `step.post.path` removed. */
  function EraseStepPaths(cs: seq<GitOpsConfig>): seq<GitOpsConfig>
  {
    seq(|cs|, i requires 0 <= i < |cs| => EraseConfig(cs[i]))
  }

  lemma {:induction false} EraseSlots(cs: seq<GitOpsConfig>)
    ensures |Slots(EraseStepPaths(cs))| == |Slots(cs)|
    ensures forall k :: 0 <= k < |Slots(cs)| ==>
      TargetStages(Slots(EraseStepPaths(cs))[k]) == TargetStages(Slots(cs)[k])
  {
    if |cs| > 0 {
      var init := cs[..|cs| - 1];
      assert EraseStepPaths(cs)[..|cs| - 1] == EraseStepPaths(init);
      EraseSlots(init);
    }
  }

  lemma {:induction false} StagesOfPointwise(a: seq<Slot>, b: seq<Slot>)
    requires |a| == |b|
    requires forall k :: 0 <= k < |a| ==> TargetStages(a[k]) == TargetStages(b[k])
    ensures StagesOf(a) == StagesOf(b)
  {
    if |a| > 0 {
      StagesOfPointwise(a[..|a| - 1], b[..|b| - 1]);
    }
  }

  /** The plan depends on the enable flags only: the declared step paths are never read. */
  lemma PlanIgnoresStepPaths(cs: seq<GitOpsConfig>)
    ensures Plan(EraseStepPaths(cs)) == Plan(cs)
  {
    EraseSlots(cs);
    StagesOfPointwise(Slots(EraseStepPaths(cs)), Slots(cs));
  }

  // ----- Edges between targets -----

  /** No configuration name and no target name of the catalog contains a hyphen. */
  ghost predicate HyphenFree(cs: seq<GitOpsConfig>)
  {
    forall sl :: sl in Slots(cs) ==> '-' !in sl.config.name && '-' !in sl.target.name
  }

  /** No two targets of the catalog carry the same repository and target names. */
  ghost predicate UniqueTargets(cs: seq<GitOpsConfig>)
  {
    forall a, b :: a in Slots(cs) && b in Slots(cs) && SlotName(a) == SlotName(b) ==> a == b
  }

  /** A stage name, split into the repository name and the rest. */
  lemma StageNameSplit(sl: Slot, s: Stage)
    requires s in TargetStages(sl)
    ensures s.name == "gitops-" + (sl.config.name + ("-" + (sl.target.name + NameSuffix(s.kind))))
  {
    TargetStageFields(sl, s);
  }

  /**
   * When names are hyphen-free, every dependency that resolves to a stage of
   * the plan resolves to a stage of the same repository and target: no edge
   * crosses targets or repositories.
   */
  lemma NoCrossTargetEdges(cs: seq<GitOpsConfig>, a: Slot, b: Slot, s: Stage, t: Stage)
    requires HyphenFree(cs)
    requires a in Slots(cs) && b in Slots(cs)
    requires s in TargetStages(a) && t in TargetStages(b) && t.name in s.dependsOn
    ensures b.config.name == a.config.name && b.target.name == a.target.name
  {
    DependencyTargets(a, s, t.name);
    StageNameSplit(b, t);
    var ra, ta := a.config.name, a.target.name;
    var sa := if t.name == PreName(ra, ta) then "-pre" else "";
    NameParts(ra, ta, sa);
    assert t.name == GitopsName(ra, ta) + sa;
    var sb := NameSuffix(t.kind);
    assert sb == "" || sb[0] == '-';
    NameInjective(ra, ta, sa, b.config.name, b.target.name, sb);
  }

  /** A dependency of a target's stage names that target's pre or apply stage. */
  lemma DependencyTargets(sl: Slot, s: Stage, d: string)
    requires s in TargetStages(sl) && d in s.dependsOn
    ensures d == PreName(sl.config.name, sl.target.name) || d == GitopsName(sl.config.name, sl.target.name)
  {
  }

  /** A stage name re-bracketed for splitting; kept apart to keep the caller's proof small. */
  lemma NameParts(r: string, t: string, x: string)
    ensures GitopsName(r, t) + x == "gitops-" + (r + ("-" + (t + x)))
  {
  }

  /** `gitops-{repo}-{target}{suffix}` determines its parts when the names carry no hyphen. */
  lemma NameInjective(r1: string, t1: string, x1: string, r2: string, t2: string, x2: string)
    requires '-' !in r1 && '-' !in t1 && '-' !in r2 && '-' !in t2
    requires x1 == "" || x1[0] == '-'
    requires x2 == "" || x2[0] == '-'
    requires "gitops-" + (r1 + ("-" + (t1 + x1))) == "gitops-" + (r2 + ("-" + (t2 + x2)))
    ensures r1 == r2 && t1 == t2 && x1 == x2
  {
    var n1, n2 := "gitops-" + (r1 + ("-" + (t1 + x1))), "gitops-" + (r2 + ("-" + (t2 + x2)));
    assert n1[7..] == r1 + ("-" + (t1 + x1));
    assert n2[7..] == r2 + ("-" + (t2 + x2));
    Text.SplitAtHyphen(r1, "-" + (t1 + x1), r2, "-" + (t2 + x2));
    assert t1 + x1 == ("-" + (t1 + x1))[1..];
    assert t2 + x2 == ("-" + (t2 + x2))[1..];
    Text.SplitAtHyphen(t1, x1, t2, x2);
  }

  /**
   * With hyphen-free, unique names, the apply stage's dependency on
   * `{name}-pre` resolves to a stage of the whole plan exactly when the
   * target's pre step is enabled; when it is disabled the reference dangles.
   */
  lemma PreReferenceResolves(cs: seq<GitOpsConfig>, a: Slot)
    requires HyphenFree(cs) && UniqueTargets(cs)
    requires a in Slots(cs)
    ensures (exists t :: t in Plan(cs) && t.name == PreName(a.config.name, a.target.name)) <==> a.target.pre.enable
  {
    var pre := PreName(a.config.name, a.target.name);
    TargetDependencies(a);
    forall t | t in Plan(cs) && t.name == pre ensures a.target.pre.enable {
      PlanMember(cs, t);
      var b :| b in Slots(cs) && t in TargetStages(b);
      assert ApplyStage(a) in TargetStages(a);
      NoCrossTargetEdges(cs, a, b, ApplyStage(a), t);
      assert b == a;
    }
    if a.target.pre.enable {
      assert PreStage(a) in TargetStages(a);
      PlanMember(cs, PreStage(a));
    }
  }

  /**
   * Without hyphen-freedom, names collide: in repository `a`, the apply stage
   * of target `b` (pre disabled) depends on `gitops-a-b-pre`, which is the
   * apply stage of target `b-pre`; that edge crosses targets.
   */
  lemma CrossTargetEdgeWithHyphens()
    ensures var off := Step(false, None);
      var c := GitOpsConfig("a", Credential("u", "p"),
        Repository("https://example.invalid/a/", "main",
          [Target("b", "./b", off, off), Target("b-pre", "./c", off, off)]));
      exists s, t :: s in Plan([c]) && t in Plan([c]) && t.name in s.dependsOn && s.targetNamespace != t.targetNamespace
  {
    var off := Step(false, None);
    var c := GitOpsConfig("a", Credential("u", "p"),
      Repository("https://example.invalid/a/", "main",
        [Target("b", "./b", off, off), Target("b-pre", "./c", off, off)]));
    var sb := Slot(c, c.repository.targets[0]);
    var sc := Slot(c, c.repository.targets[1]);
    assert [c][..0] == [];
    assert Slots([c]) == [sb, sc];
    assert [sb, sc][..1] == [sb];
    assert StagesOf([sb]) == [ApplyStage(sb)] by {
      assert [sb][..0] == [];
    }
    assert Plan([c]) == [ApplyStage(sb), ApplyStage(sc)];
    assert ApplyStage(sc).name == "gitops-a-b-pre";
    assert sb.config.name == "a" && sb.target.name == "b";
    assert PreName("a", "b") == "gitops-a-b-pre";
    assert ApplyStage(sb).dependsOn == ["gitops-a-b-pre"];
    assert ApplyStage(sb).targetNamespace == "a-b" && ApplyStage(sc).targetNamespace == "a-b-pre";
  }
}
