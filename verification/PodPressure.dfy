/**
 Resource strain: which nodes and pods suffer, how pods rank for eviction, and which of them the
 cluster's strain justifies evicting. Time is in nanoseconds.
 */
module PodPressure {
  import opened Text
  import opened Staleness

  // ---------- Nodes ----------

  datatype NodeCondition = NodeCondition(kind: string, status: string)

  datatype Node = Node(name: string, conditions: seq<NodeCondition>)

  const PRESSURE_KINDS: seq<string> := ["DiskPressure", "MemoryPressure", "PIDPressure"]

  predicate UnderPressure(n: Node)
  {
    exists c :: c in n.conditions && c.kind in PRESSURE_KINDS && c.status == "True"
  }

  datatype Strain = Strain(strained: nat, total: nat, percentage: real, nodes: seq<string>, hasStrain: bool)

  /** The names of the nodes under pressure, in order. */
  function Pressured(nodes: seq<Node>): (names: seq<string>)
    ensures |names| <= |nodes|
  {
    if nodes == [] then []
    else
      var last := nodes[|nodes| - 1];
      Pressured(nodes[..|nodes| - 1]) + if UnderPressure(last) then [last.name] else []
  }

  method CollectPressured(nodes: seq<Node>) returns (names: seq<string>)
    ensures names == Pressured(nodes)
  {
    names := [];
    for k := 0 to |nodes|
      invariant names == Pressured(nodes[..k])
    {
      assert nodes[..k + 1][..k] == nodes[..k];
      if UnderPressure(nodes[k]) {
        names := names + [nodes[k].name];
      }
    }
    assert nodes[..|nodes|] == nodes;
  }

  /** A node counts when one of three conditions is "True", whatever its other conditions say. */
  lemma UnderPressureMeaning(n: Node)
    ensures UnderPressure(n) <==>
            exists c :: c in n.conditions && c.kind in {"DiskPressure", "MemoryPressure", "PIDPressure"} && c.status == "True"
  {
    assert forall kind :: kind in PRESSURE_KINDS <==> kind in {"DiskPressure", "MemoryPressure", "PIDPressure"};
  }

  /** As many names as nodes under pressure, in the order of the nodes. */
  lemma PressuredMeaning(nodes: seq<Node>) returns (at: seq<nat>)
    ensures |at| == |Pressured(nodes)| && forall k :: 0 <= k < |at| ==> at[k] < |nodes| && Pressured(nodes)[k] == nodes[at[k]].name
    ensures forall j, k :: 0 <= j < k < |at| ==> at[j] < at[k]
    ensures forall i: nat :: i in at <==>
              i < |nodes| && exists c :: c in nodes[i].conditions && c.kind in {"DiskPressure", "MemoryPressure", "PIDPressure"} && c.status == "True"
  {
    at := PressuredAt(nodes);
    forall i: nat | i < |nodes|
      ensures i in at <==> exists c :: c in nodes[i].conditions && c.kind in {"DiskPressure", "MemoryPressure", "PIDPressure"} && c.status == "True"
    {
      UnderPressureMeaning(nodes[i]);
    }
  }

  /** The names are those of the nodes at these positions, which are the pressured ones. */
  predicate Selects(nodes: seq<Node>, at: seq<nat>, names: seq<string>)
  {
    && |at| == |names| && (forall k :: 0 <= k < |at| ==> at[k] < |nodes| && names[k] == nodes[at[k]].name)
    && (forall j, k :: 0 <= j < k < |at| ==> at[j] < at[k])
    && (forall i :: 0 <= i < |nodes| ==> (i in at <==> UnderPressure(nodes[i])))
  }

  lemma {:induction false} PressuredAt(nodes: seq<Node>) returns (at: seq<nat>)
    ensures Selects(nodes, at, Pressured(nodes))
  {
    at := [];
    if nodes != [] {
      var init, last := nodes[..|nodes| - 1], nodes[|nodes| - 1];
      at := PressuredAt(init);
      SelectsNext(init, at, Pressured(init), last);
      assert nodes == init + [last];
      at := at + if UnderPressure(last) then [|init|] else [];
    }
  }

  lemma SelectsNext(nodes: seq<Node>, at: seq<nat>, names: seq<string>, last: Node)
    requires Selects(nodes, at, names)
    ensures if UnderPressure(last) then Selects(nodes + [last], at + [|nodes|], names + [last.name]) else Selects(nodes + [last], at, names)
  {
    var n, more := |nodes|, nodes + [last];
    assert forall i :: 0 <= i < n ==> more[i] == nodes[i];
    assert n !in at;
    assert forall i :: i in at + [n] <==> i in at || i == n;
  }

  /** The share of pressured nodes, in percent and in exact arithmetic; zero for an empty cluster. */
  function Percentage(strained: nat, total: nat): real
  {
    if total > 0 then (strained as real / total as real) * 100.0 else 0.0
  }

  /** The pressured nodes, their exact share, and whether it reaches the threshold. */
  predicate IsStrainOf(s: Strain, nodes: seq<Node>, threshold: real)
  {
    && s.nodes == Pressured(nodes) && s.strained == |s.nodes| && s.total == |nodes|
    && IsShare(s.percentage, s.strained, s.total)
    && (s.hasStrain <==> Reaches(s.strained, s.total, threshold))
  }

  predicate IsShare(percentage: real, strained: nat, total: nat)
  {
    if total == 0 then percentage == 0.0 else percentage * total as real == 100.0 * strained as real
  }

  predicate Reaches(strained: nat, total: nat, threshold: real)
  {
    100.0 * strained as real >= threshold * total as real && (total == 0 ==> threshold <= 0.0)
  }

  /** IsClusterUnderStrain: strained when the share of pressured nodes reaches the threshold. */
  method IsClusterUnderStrain(nodes: seq<Node>, threshold: real) returns (s: Strain)
    ensures IsStrainOf(s, nodes, threshold)
    ensures s.nodes == Pressured(nodes) && s.strained == |s.nodes| && s.total == |nodes|
    ensures IsShare(s.percentage, s.strained, s.total)
    ensures s.hasStrain <==> Reaches(s.strained, s.total, threshold)
  {
    var names := CollectPressured(nodes);
    var percentage := Percentage(|names|, |nodes|);
    StrainThreshold(|names|, |nodes|, threshold);
    PercentageIsShare(|names|, |nodes|);
    s := Strain(|names|, |nodes|, percentage, names, percentage >= threshold);
  }

  /** Comparing the percentage with the threshold is comparing cross products. */
  lemma StrainThreshold(strained: nat, total: nat, threshold: real)
    ensures Percentage(strained, total) >= threshold <==> Reaches(strained, total, threshold)
    ensures Reaches(strained, total, threshold) <==>
            if total > 0 then 100.0 * strained as real >= threshold * total as real else threshold <= 0.0
  {
    if total > 0 {
      CrossMultiply(strained as real, total as real, threshold);
    }
  }

  lemma PercentageIsShare(strained: nat, total: nat)
    ensures IsShare(Percentage(strained, total), strained, total)
    ensures if total > 0 then Percentage(strained, total) * total as real == 100.0 * strained as real else Percentage(strained, total) == 0.0
  {
    if total > 0 {
      ShareOf(strained as real, total as real);
    }
  }

  lemma ShareOf(a: real, b: real)
    requires b > 0.0
    ensures (a / b) * 100.0 * b == 100.0 * a
  {
    var q := a / b;
    assert a == q * b;
    assert q * 100.0 * b == 100.0 * (q * b);
  }

  lemma CrossMultiply(a: real, b: real, t: real)
    requires b > 0.0
    ensures (a / b) * 100.0 >= t <==> 100.0 * a >= t * b
  {
    var q := a / b;
    assert a == q * b;
    if q * 100.0 >= t {
      assert (q * 100.0 - t) * b >= 0.0;
    } else {
      assert (t - q * 100.0) * b > 0.0;
    }
  }

  // ---------- Pods ----------

  /** The reasons of the last and of the present termination, if any. */
  datatype Container = Container(name: string, lastReason: Option<string>, reason: Option<string>, restarts: int)

  datatype PodCondition = PodCondition(kind: string, status: string, reason: string)

  datatype Pod = Pod(namespace: string, name: string, owners: nat, priorityClass: string,
                     containers: seq<Container>, conditions: seq<PodCondition>, phase: string, created: int)

  datatype Cause =
    | NoCause
    | OOMKilled(container: string)
    | ManyRestarts(container: string, restarts: int)
    | Unschedulable(reason: string)
    | StuckPending

  datatype Issue = Issue(hasIssue: bool, oomKilled: bool, restartCount: int, cause: Cause)

  const NO_ISSUE := Issue(false, false, 0, NoCause)

  predicate IsOOM(c: Container)
  {
    c.lastReason == Some("OOMKilled") || c.reason == Some("OOMKilled")
  }

  predicate LongPending(pod: Pod, now: int)
  {
    pod.phase == "Pending" && now - pod.created > 5 * MINUTE
  }

  predicate CannotSchedule(c: PodCondition)
  {
    c.kind == "PodScheduled" && c.status == "False" && Contains(c.reason, "Insufficient")
  }

  /** The verdict on the containers: the first one killed for memory, or else the last one that restarts a lot. */
  function ContainerIssue(cs: seq<Container>): Issue
  {
    if cs == [] then NO_ISSUE
    else
      var before, last := ContainerIssue(cs[..|cs| - 1]), cs[|cs| - 1];
      if before.oomKilled then before
      else if IsOOM(last) then Issue(true, true, last.restarts, OOMKilled(last.name))
      else if last.restarts >= 5 then Issue(true, false, last.restarts, ManyRestarts(last.name, last.restarts))
      else before
  }

  function ConditionIssue(issue: Issue, cs: seq<PodCondition>): Issue
  {
    if cs == [] then issue
    else
      var before, last := ConditionIssue(issue, cs[..|cs| - 1]), cs[|cs| - 1];
      if CannotSchedule(last) then before.(hasIssue := true, cause := Unschedulable(last.reason)) else before
  }

  function IssueOf(pod: Pod, now: int): Issue
  {
    var issue := ContainerIssue(pod.containers);
    if issue.oomKilled then issue
    else
      var scheduled := ConditionIssue(issue, pod.conditions);
      if LongPending(pod, now) then scheduled.(hasIssue := true, cause := StuckPending) else scheduled
  }

  lemma {:induction false} OOMEndsScan(cs: seq<Container>, k: nat)
    requires k <= |cs| && ContainerIssue(cs[..k]).oomKilled
    ensures ContainerIssue(cs) == ContainerIssue(cs[..k])
    decreases |cs|
  {
    if k < |cs| {
      var init := cs[..|cs| - 1];
      assert init[..k] == cs[..k];
      OOMEndsScan(init, k);
    } else {
      assert cs[..k] == cs;
    }
  }

  /** IsPodResourceConstrained: fields overwritten as the loops go, with an early return on OOM. */
  method IsPodResourceConstrained(pod: Pod, now: int) returns (issue: Issue)
    ensures issue == IssueOf(pod, now)
  {
    issue := NO_ISSUE;
    var cs := pod.containers;
    for k := 0 to |cs|
      invariant issue == ContainerIssue(cs[..k]) && !issue.oomKilled
    {
      var c := cs[k];
      assert cs[..k + 1][..k] == cs[..k];
      if c.lastReason == Some("OOMKilled") || c.reason == Some("OOMKilled") {
        issue := issue.(hasIssue := true, oomKilled := true, cause := OOMKilled(c.name), restartCount := c.restarts);
        OOMEndsScan(cs, k + 1);
        return;
      }
      if c.restarts >= 5 {
        issue := issue.(hasIssue := true, cause := ManyRestarts(c.name, c.restarts), restartCount := c.restarts);
      }
    }
    assert cs[..|cs|] == cs;
    var conditions := pod.conditions;
    ghost var scanned := issue;
    for k := 0 to |conditions|
      invariant issue == ConditionIssue(scanned, conditions[..k])
    {
      assert conditions[..k + 1][..k] == conditions[..k];
      if CannotSchedule(conditions[k]) {
        issue := issue.(hasIssue := true, cause := Unschedulable(conditions[k].reason));
      }
    }
    assert conditions[..|conditions|] == conditions;
    if pod.phase == "Pending" {
      if now - pod.created > 5 * MINUTE {
        issue := issue.(hasIssue := true, cause := StuckPending);
      }
    }
  }

  /** GetPodPriority: lower goes first; an unknown class counts as the default. */
  function Priority(pod: Pod): int
  {
    match pod.priorityClass
    case "system-cluster-critical" => 100
    case "system-node-critical" => 90
    case "high" => 70
    case "medium" => 50
    case "low" => 20
    case _ => 30
  }

  /** ShouldEvictPodForResourceOptimization. */
  predicate ShouldEvict(pod: Pod, strain: Strain, now: int)
  {
    if !strain.hasStrain then false
    else if Priority(pod) >= 90 then false
    else
      var issue := IssueOf(pod, now);
      if !issue.hasIssue then false
      else if issue.oomKilled then true
      else if issue.restartCount >= 5 then true
      else LongPending(pod, now)
  }

  // ---------- What the scans mean ----------

  /** The verdict names the first container killed for memory; if there is none, the last one that restarts a lot. */
  lemma {:induction false} ContainerIssueNames(cs: seq<Container>, k: nat)
    requires k < |cs|
    ensures (cs[k].lastReason == Some("OOMKilled") || cs[k].reason == Some("OOMKilled"))
            && (forall j :: 0 <= j < k ==> cs[j].lastReason != Some("OOMKilled") && cs[j].reason != Some("OOMKilled"))
            ==> ContainerIssue(cs) == Issue(true, true, cs[k].restarts, OOMKilled(cs[k].name))
    ensures (forall c :: c in cs ==> c.lastReason != Some("OOMKilled") && c.reason != Some("OOMKilled"))
            && cs[k].restarts >= 5 && (forall j :: k < j < |cs| ==> cs[j].restarts < 5)
            ==> ContainerIssue(cs) == Issue(true, false, cs[k].restarts, ManyRestarts(cs[k].name, cs[k].restarts))
    decreases |cs|
  {
    var init := cs[..|cs| - 1];
    ContainerIssueMeaning(init);
    if k < |init| {
      ContainerIssueNames(init, k);
    }
  }

  predicate SomeOOM(pod: Pod) { exists c :: c in pod.containers && IsOOM(c) }

  predicate SomeManyRestarts(pod: Pod) { exists c :: c in pod.containers && c.restarts >= 5 }

  predicate SomeUnschedulable(pod: Pod) { exists c :: c in pod.conditions && CannotSchedule(c) }

  lemma {:induction false} ContainerIssueMeaning(cs: seq<Container>)
    ensures var issue := ContainerIssue(cs);
            && (issue.oomKilled <==> exists c :: c in cs && IsOOM(c))
            && (!issue.oomKilled ==> (issue.restartCount >= 5 <==> exists c :: c in cs && c.restarts >= 5))
            && (issue.hasIssue <==> issue.oomKilled || exists c :: c in cs && c.restarts >= 5)
  {
    if cs != [] {
      var init, last := cs[..|cs| - 1], cs[|cs| - 1];
      ContainerIssueMeaning(init);
      assert cs == init + [last];
      forall c ensures c in cs <==> c in init || c == last {
      }
    }
  }

  lemma {:induction false} ConditionIssueMeaning(issue: Issue, cs: seq<PodCondition>)
    ensures var after := ConditionIssue(issue, cs);
            && after.oomKilled == issue.oomKilled && after.restartCount == issue.restartCount
            && (after.hasIssue <==> issue.hasIssue || exists c :: c in cs && CannotSchedule(c))
  {
    if cs != [] {
      var init, last := cs[..|cs| - 1], cs[|cs| - 1];
      ConditionIssueMeaning(issue, init);
      assert cs == init + [last];
      forall c ensures c in cs <==> c in init || c == last {
      }
    }
  }

  /** A pod is constrained exactly when one of the four signs is present. */
  lemma ConstrainedMeaning(pod: Pod, now: int)
    ensures IssueOf(pod, now).oomKilled <==> SomeOOM(pod)
    ensures IssueOf(pod, now).hasIssue <==>
            SomeOOM(pod) || SomeManyRestarts(pod) || SomeUnschedulable(pod) || LongPending(pod, now)
    ensures !SomeOOM(pod) ==> (IssueOf(pod, now).restartCount >= 5 <==> SomeManyRestarts(pod))
    ensures SomeOOM(pod) <==> exists c :: c in pod.containers && (c.lastReason == Some("OOMKilled") || c.reason == Some("OOMKilled"))
    ensures SomeManyRestarts(pod) <==> exists c :: c in pod.containers && c.restarts >= 5
    ensures SomeUnschedulable(pod) <==>
            exists c :: c in pod.conditions && c.kind == "PodScheduled" && c.status == "False" && Contains(c.reason, "Insufficient")
    ensures LongPending(pod, now) <==> pod.phase == "Pending" && now - pod.created > 300_000_000_000
  {
    ContainerIssueMeaning(pod.containers);
    ConditionIssueMeaning(ContainerIssue(pod.containers), pod.conditions);
  }

  /**
   Evicting is justified exactly by strain, a class that is not critical, and a container killed for
   memory, a container with five restarts, or five minutes of waiting to be scheduled.
   */
  lemma ShouldEvictIff(pod: Pod, strain: Strain, now: int)
    ensures ShouldEvict(pod, strain, now) <==>
            && strain.hasStrain && pod.priorityClass !in {"system-cluster-critical", "system-node-critical"}
            && (SomeOOM(pod) || SomeManyRestarts(pod) || LongPending(pod, now))
  {
    ConstrainedMeaning(pod, now);
  }

  /** The scores matter in two bands: the critical classes are exempt, and these classes need a sign of trouble. */
  lemma PriorityBands(pod: Pod)
    ensures Priority(pod) >= 90 <==> pod.priorityClass in {"system-cluster-critical", "system-node-critical"}
    ensures Priority(pod) >= 50 <==> pod.priorityClass in {"system-cluster-critical", "system-node-critical", "high", "medium"}
  {
  }

  /**
   The order in which classes are evicted, without scores: "low", then no class or an unknown one, then
   "medium", "high", "system-node-critical" and "system-cluster-critical". `NoLater(a, b)` says that `a`
   comes no later than `b` in it.
   */
  predicate NoLater(a: string, b: string)
  {
    && (b == "low" ==> a == "low")
    && (a in {"medium", "high", "system-node-critical", "system-cluster-critical"} ==> b in {"medium", "high", "system-node-critical", "system-cluster-critical"})
    && (a in {"high", "system-node-critical", "system-cluster-critical"} ==> b in {"high", "system-node-critical", "system-cluster-critical"})
    && (a in {"system-node-critical", "system-cluster-critical"} ==> b in {"system-node-critical", "system-cluster-critical"})
    && (a == "system-cluster-critical" ==> b == "system-cluster-critical")
  }

  /** Comparing scores is comparing classes in that order. */
  lemma PriorityIsByClass(a: Pod, b: Pod)
    ensures var (x, y) := (a.priorityClass, b.priorityClass);
            Priority(a) <= Priority(b) <==>
            && (y == "low" ==> x == "low")
            && (x in {"medium", "high", "system-node-critical", "system-cluster-critical"} ==> y in {"medium", "high", "system-node-critical", "system-cluster-critical"})
            && (x in {"high", "system-node-critical", "system-cluster-critical"} ==> y in {"high", "system-node-critical", "system-cluster-critical"})
            && (x in {"system-node-critical", "system-cluster-critical"} ==> y in {"system-node-critical", "system-cluster-critical"})
            && (x == "system-cluster-critical" ==> y == "system-cluster-critical")
    ensures Priority(a) <= Priority(b) <==> NoLater(a.priorityClass, b.priorityClass)
  {
  }

  /** A constrained, non-critical pod on a strained cluster is spared exactly when failing to schedule is its only sign. */
  lemma ConstrainedYetSparedIff(pod: Pod, strain: Strain, now: int)
    requires strain.hasStrain && pod.priorityClass !in {"system-cluster-critical", "system-node-critical"}
    ensures IssueOf(pod, now).hasIssue && !ShouldEvict(pod, strain, now) <==>
            SomeUnschedulable(pod) && !SomeOOM(pod) && !SomeManyRestarts(pod) && !LongPending(pod, now)
  {
    ConstrainedMeaning(pod, now);
    ShouldEvictIff(pod, strain, now);
  }
}
