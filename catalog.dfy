/**
 * The GitOps catalog: the configuration records that both `createFlux2Resources`
 * (ops/infra/src/flux.ts) and the top-level program (ops/infra/index.ts) walk,
 * and the catalog order in which their nested `map`/`flatMap` visit targets.
 */
module Catalog {
  import opened Wrappers

  /**
   * One optional step of a target. The declared `path` exists in the record
   * type of flux.ts and in one catalog, is absent from the other, and is never read.
   */
  datatype Step = Step(enable: bool, path: Option<string>)

  datatype Target = Target(name: string, path: string, pre: Step, post: Step)

  /** The repository credential written into the git secret; the password is an opaque value. */
  datatype Credential = Credential(username: string, password: string)

  datatype Repository = Repository(url: string, branch: string, targets: seq<Target>)

  /** One entry of `gitOpsConfigs`. */
  datatype GitOpsConfig = GitOpsConfig(name: string, secret: Credential, repository: Repository)

  /** A target together with the configuration that owns it. */
  datatype Slot = Slot(config: GitOpsConfig, target: Target)

  /** The slots of one configuration, in target order. */
  function ConfigSlots(c: GitOpsConfig): (r: seq<Slot>)
    ensures |r| == |c.repository.targets|
    ensures forall j :: 0 <= j < |r| ==> r[j] == Slot(c, c.repository.targets[j])
  {
    seq(|c.repository.targets|, j requires 0 <= j < |c.repository.targets| => Slot(c, c.repository.targets[j]))
  }

  /** Every (configuration, target) pair in catalog order, as the nested loops visit them. */
  function Slots(cs: seq<GitOpsConfig>): seq<Slot>
  {
    if |cs| == 0 then [] else Slots(cs[..|cs| - 1]) + ConfigSlots(cs[|cs| - 1])
  }

  /** The number of targets in the catalog. */
  function TargetCount(cs: seq<GitOpsConfig>): nat
  {
    if |cs| == 0 then 0 else TargetCount(cs[..|cs| - 1]) + |cs[|cs| - 1].repository.targets|
  }

  /** A slot is visited exactly when its target belongs to one of the configurations. */
  lemma {:induction false} SlotsMember(cs: seq<GitOpsConfig>, sl: Slot)
    ensures sl in Slots(cs) <==>
      exists i, j :: 0 <= i < |cs| && 0 <= j < |cs[i].repository.targets| && sl == Slot(cs[i], cs[i].repository.targets[j])
  {
    if |cs| > 0 {
      var init := cs[..|cs| - 1];
      var last := cs[|cs| - 1];
      SlotsMember(init, sl);
      if sl in Slots(cs) {
        if sl in Slots(init) {
          var i, j :| 0 <= i < |init| && 0 <= j < |init[i].repository.targets| && sl == Slot(init[i], init[i].repository.targets[j]);
          assert cs[i] == init[i];
        } else {
          assert sl in ConfigSlots(last);
          var j :| 0 <= j < |last.repository.targets| && ConfigSlots(last)[j] == sl;
          assert cs[|cs| - 1] == last;
        }
      } else {
        forall i, j | 0 <= i < |cs| && 0 <= j < |cs[i].repository.targets|
          ensures sl != Slot(cs[i], cs[i].repository.targets[j])
        {
          if i < |cs| - 1 {
            assert cs[i] == init[i];
          } else {
            assert ConfigSlots(last)[j] == Slot(cs[i], cs[i].repository.targets[j]);
          }
        }
      }
    }
  }

  /** There is one slot per target. */
  lemma {:induction false} SlotsCount(cs: seq<GitOpsConfig>)
    ensures |Slots(cs)| == TargetCount(cs)
  {
    if |cs| > 0 {
      SlotsCount(cs[..|cs| - 1]);
    }
  }

  /** Every visited slot's target is one of its configuration's targets. */
  lemma SlotTargetOwned(cs: seq<GitOpsConfig>, sl: Slot)
    requires sl in Slots(cs)
    ensures sl.config in cs && sl.target in sl.config.repository.targets
  {
    SlotsMember(cs, sl);
  }
}
