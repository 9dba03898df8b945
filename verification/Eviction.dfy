/**
 The resource optimizer: it collects candidates from every namespace, orders them by priority, and
 evicts a few of them, never in a test namespace.
 */
module Eviction {
  import opened Text
  import opened Matching
  import opened Cooldown
  import opened HealLedger
  import opened PodPressure
  import opened NamespaceWatcher
  import opened NamespaceRuns

  // ---------- Selection ----------

  const MAX_EVICTIONS: nat := 5

  predicate ByPriority(pods: seq<Pod>)
  {
    forall i, j :: 0 <= i < j < |pods| ==> Priority(pods[i]) <= Priority(pods[j])
  }

  /** The first `i` positions are final: in order, and below everything after them. */
  ghost predicate FinalBelow(a: array<Pod>, i: int)
    requires i <= a.Length
    reads a
  {
    forall m, n :: 0 <= m < i && m < n < a.Length ==> Priority(a[m]) <= Priority(a[n])
  }

  /** The exchange sort on the candidates, in place. */
  method SortByPriority(a: array<Pod>)
    modifies a
    ensures ByPriority(a[..]) && multiset(a[..]) == multiset(old(a[..]))
    ensures forall i, j :: 0 <= i < j < a.Length ==> NoLater(a[i].priorityClass, a[j].priorityClass)
  {
    var i := 0;
    while i < a.Length - 1
      invariant 0 <= i <= a.Length
      invariant FinalBelow(a, i)
      invariant multiset(a[..]) == multiset(old(a[..]))
    {
      ExchangeFrom(a, i);
      i := i + 1;
    }
    forall i, j | 0 <= i < j < a.Length ensures NoLater(a[i].priorityClass, a[j].priorityClass) {
      PriorityIsByClass(a[i], a[j]);
    }
  }

  /** The inner loop: exchange until position `i` holds the least of what is left. */
  method ExchangeFrom(a: array<Pod>, i: nat)
    requires i < a.Length && FinalBelow(a, i)
    modifies a
    ensures FinalBelow(a, i + 1) && multiset(a[..]) == multiset(old(a[..]))
  {
    var j := i + 1;
    while j < a.Length
      invariant i < j <= a.Length
      invariant FinalBelow(a, i)
      invariant LeastBefore(a, i, j)
      invariant multiset(a[..]) == multiset(old(a[..]))
    {
      CompareAndExchange(a, i, j);
      j := j + 1;
    }
  }

  ghost predicate LeastBefore(a: array<Pod>, i: int, j: int)
    requires 0 <= i < j <= a.Length
    reads a
  {
    forall n :: i < n < j ==> Priority(a[i]) <= Priority(a[n])
  }

  method CompareAndExchange(a: array<Pod>, i: nat, j: nat)
    requires i < j < a.Length && FinalBelow(a, i) && LeastBefore(a, i, j)
    modifies a
    ensures FinalBelow(a, i) && LeastBefore(a, i, j + 1)
    ensures multiset(a[..]) == multiset(old(a[..]))
  {
    if Priority(a[i]) > Priority(a[j]) {
      Exchange(a, i, j);
    }
  }

  method Exchange(a: array<Pod>, i: nat, j: nat)
    requires i < a.Length && j < a.Length
    modifies a
    ensures a[i] == old(a[j]) && a[j] == old(a[i])
    ensures forall k :: 0 <= k < a.Length && k != i && k != j ==> a[k] == old(a[k])
    ensures multiset(a[..]) == multiset(old(a[..]))
  {
    a[i], a[j] := a[j], a[i];
  }

  /** The candidates to evict now: sorted, then cut to the first five. */
  method PickVictims(a: array<Pod>) returns (chosen: seq<Pod>)
    modifies a
    ensures forall i, j :: 0 <= i < j < |chosen| ==> NoLater(chosen[i].priorityClass, chosen[j].priorityClass)
    ensures |chosen| == if a.Length > 5 then 5 else a.Length
    ensures multiset(chosen) <= multiset(old(a[..]))
    ensures forall p, c :: p in multiset(old(a[..])) - multiset(chosen) && c in chosen ==> NoLater(c.priorityClass, p.priorityClass)
  {
    ghost var candidates := a[..];
    SortByPriority(a);
    chosen := a[..];
    ghost var left: seq<Pod> := [];
    if |chosen| > MAX_EVICTIONS {
      chosen, left := chosen[..MAX_EVICTIONS], chosen[MAX_EVICTIONS..];
    }
    assert a[..] == chosen + left;
    ChosenFirst(candidates, chosen, left);
  }

  /** Cutting a sorted arrangement of the candidates leaves none of lower priority behind. */
  lemma ChosenFirst(candidates: seq<Pod>, chosen: seq<Pod>, left: seq<Pod>)
    requires (forall i, j :: 0 <= i < j < |chosen + left| ==> NoLater((chosen + left)[i].priorityClass, (chosen + left)[j].priorityClass))
    requires multiset(candidates) == multiset(chosen + left)
    ensures multiset(candidates) - multiset(chosen) == multiset(left)
    ensures forall p :: p in candidates <==> p in chosen || p in left
    ensures forall c, p :: c in chosen && p in left ==> NoLater(c.priorityClass, p.priorityClass)
  {
    assert multiset(chosen + left) == multiset(chosen) + multiset(left);
    forall p ensures p in candidates <==> p in chosen || p in left {
      assert p in candidates <==> p in multiset(candidates);
    }
    forall c, p | c in chosen && p in left ensures NoLater(c.priorityClass, p.priorityClass) {
      var i :| 0 <= i < |chosen| && chosen[i] == c;
      var j :| 0 <= j < |left| && left[j] == p;
      assert (chosen + left)[i] == c && (chosen + left)[|chosen| + j] == p;
    }
  }

  // ---------- Candidates ----------

  function PodKey(pod: Pod): string
  {
    pod.namespace + "/" + pod.name
  }

  /** isTestNamespace, for the list as it stands at that moment. */
  predicate IsTest(pattern: string, names: seq<string>, namespace: string)
  {
    (pattern != "" && Glob(pattern, namespace)) || MatchesPattern(Wildcards(names), namespace)
  }

  lemma TestMeaning(pattern: string, names: seq<string>, namespace: string)
    ensures IsTest(pattern, names, namespace) <==>
            (pattern != "" && Glob(pattern, namespace)) || exists w :: w in names && '*' in w && Glob(w, namespace)
  {
    if p :| p in Wildcards(names) && Glob(p, namespace) {
      WildcardsListed(names, p);
    }
    if w :| w in names && '*' in w && Glob(w, namespace) {
      WildcardsListed(names, w);
    }
  }

  lemma EitherPattern(a: seq<string>, b: seq<string>, namespace: string)
    ensures MatchesPattern(a + b, namespace) <==> MatchesPattern(a, namespace) || MatchesPattern(b, namespace)
  {
    assert forall p :: p in a + b <==> p in a || p in b;
  }

  /** A list without wildcards protects nothing: then only the configured pattern does. */
  lemma OnlyPatternProtects(pattern: string, names: seq<string>, namespace: string)
    requires NoWildcards(names)
    ensures IsTest(pattern, names, namespace) <==> pattern != "" && Glob(pattern, namespace)
  {
    if p :| p in Wildcards(names) && Glob(p, namespace) {
      WildcardsListed(names, p);
    }
  }

  /** One look at a pod: the list and the clock at that moment. */
  datatype Sight = Sight(names: seq<string>, now: int)

  /** What a chosen pod meets when its turn comes: the list, the API's answers, and the clock afterwards. */
  datatype Reply = Reply(names: seq<string>, evicted: bool, deleted: bool, now: int)

  datatype Settings = Settings(pattern: string, cooldown: int, threshold: real)

  /** What the filter goes by during one pass; nothing is recorded before all goroutines are done. */
  datatype View = View(s: Settings, strain: Strain, last: map<string, int>, sight: Pod -> Sight)

  predicate Candidate(v: View, pod: Pod)
  {
    var sight := v.sight(pod);
    && pod.owners > 0
    && !Recent(Lookup(v.last, PodKey(pod)), sight.now, v.s.cooldown)
    && !IsTest(v.s.pattern, sight.names, pod.namespace)
    && v.strain.hasStrain
    && (ShouldEvict(pod, v.strain, sight.now) || Priority(pod) < 50)
  }

  /**
   A pod is a candidate exactly when it has an owner, is past its cooldown, no pattern matches its namespace,
   the cluster is strained, its class is not critical and, if it is "high" or "medium", it shows a sign of trouble.
   */
  lemma CandidateIff(v: View, pod: Pod)
    ensures var key, now := pod.namespace + "/" + pod.name, v.sight(pod).now;
            Candidate(v, pod) <==>
            && pod.owners > 0 && !(key in v.last && now - v.last[key] < v.s.cooldown)
            && !(v.s.pattern != "" && Glob(v.s.pattern, pod.namespace))
            && !(exists w :: w in v.sight(pod).names && '*' in w && Glob(w, pod.namespace))
            && v.strain.hasStrain && pod.priorityClass !in {"system-cluster-critical", "system-node-critical"}
            && (pod.priorityClass in {"high", "medium"} ==> SomeOOM(pod) || SomeManyRestarts(pod) || LongPending(pod, now))
  {
    ShouldEvictIff(pod, v.strain, v.sight(pod).now);
    PriorityBands(pod);
    TestMeaning(v.s.pattern, v.sight(pod).names, pod.namespace);
  }

  datatype Verb = Evict | Delete

  /** One call, with what was known when the pod was chosen and when it was acted on, its outcome and the clock afterwards. */
  datatype Action = Action(pod: Pod, strain: Strain, lastOptimized: Option<int>, chosen: Sight, names: seq<string>,
                           verb: Verb, ok: bool, time: int)

  /** What every action must satisfy. */
  ghost predicate Safe(s: Settings, a: Action)
  {
    && a.pod.owners > 0
    && !Recent(a.lastOptimized, a.chosen.now, s.cooldown)
    && a.pod.priorityClass !in {"system-cluster-critical", "system-node-critical"}
    && (a.pod.priorityClass in {"high", "medium"} ==> SomeOOM(a.pod) || SomeManyRestarts(a.pod) || LongPending(a.pod, a.chosen.now))
    && a.strain.hasStrain
    && (s.pattern != "" ==> !Glob(s.pattern, a.pod.namespace))
    && !IsTest(s.pattern, a.chosen.names, a.pod.namespace)
    && !IsTest(s.pattern, a.names, a.pod.namespace)
  }

  function ActionOn(v: View, pod: Pod, reply: Reply, verb: Verb, ok: bool): Action
  {
    Action(pod, v.strain, Lookup(v.last, PodKey(pod)), v.sight(pod), reply.names, verb, ok, reply.now)
  }

  /** A candidate that still is in no test namespace when its turn comes may be acted on. */
  lemma CandidateIsSafe(v: View, pod: Pod, reply: Reply, verb: Verb, ok: bool)
    requires Candidate(v, pod) && !IsTest(v.s.pattern, reply.names, pod.namespace)
    ensures Safe(v.s, ActionOn(v, pod, reply, verb, ok))
  {
    CandidateIff(v, pod);
  }

  // ---------- The log of a whole run ----------

  datatype Event = Acted(a: Action) | Sanitized

  predicate Success(e: Event) { e.Acted? && e.a.ok }

  function KeyOf(e: Event): string
    requires e.Acted?
  {
    PodKey(e.a.pod)
  }

  /** None in a test namespace, else an eviction, followed by a deletion if that failed. */
  function EventsFor(v: View, pod: Pod, reply: Reply): seq<Event>
  {
    if IsTest(v.s.pattern, reply.names, pod.namespace) then []
    else if reply.evicted then [Acted(ActionOn(v, pod, reply, Evict, true))]
    else [Acted(ActionOn(v, pod, reply, Evict, false)), Acted(ActionOn(v, pod, reply, Verb.Delete, reply.deleted))]
  }

  function Events(v: View, chosen: seq<Pod>, reply: Pod -> Reply): seq<Event>
  {
    if chosen == [] then []
    else
      var pod := chosen[|chosen| - 1];
      Events(v, chosen[..|chosen| - 1], reply) + EventsFor(v, pod, reply(pod))
  }

  /** The map entry is the record of an action that succeeded. */
  function RecordedOne(v: View, last: map<string, int>, pod: Pod, reply: Reply): map<string, int>
  {
    if !IsTest(v.s.pattern, reply.names, pod.namespace) && (reply.evicted || reply.deleted)
    then last[PodKey(pod) := reply.now] else last
  }

  function Recorded(v: View, last: map<string, int>, chosen: seq<Pod>, reply: Pod -> Reply): map<string, int>
  {
    if chosen == [] then last
    else
      var pod := chosen[|chosen| - 1];
      RecordedOne(v, Recorded(v, last, chosen[..|chosen| - 1], reply), pod, reply(pod))
  }

  lemma NextChosen(v: View, last: map<string, int>, chosen: seq<Pod>, k: nat, reply: Pod -> Reply, log: seq<Event>)
    requires k < |chosen|
    ensures log + Events(v, chosen[..k + 1], reply) == log + Events(v, chosen[..k], reply) + EventsFor(v, chosen[k], reply(chosen[k]))
    ensures Recorded(v, last, chosen[..k + 1], reply) == RecordedOne(v, Recorded(v, last, chosen[..k], reply), chosen[k], reply(chosen[k]))
  {
    assert chosen[..k + 1][..k] == chosen[..k];
  }

  /** The time of the latest success on each pod since the last sanitizing. */
  function Latest(log: seq<Event>): map<string, int>
  {
    if log == [] then map[]
    else
      var before, e := Latest(log[..|log| - 1]), log[|log| - 1];
      if e.Sanitized? then map[] else if e.a.ok then before[KeyOf(e) := e.a.time] else before
  }

  /** The map says when each pod was last acted on with success; what it lacks was pruned for its age. */
  ghost predicate Tied(log: seq<Event>, last: map<string, int>, now: int, cooldown: int)
  {
    && (forall k :: k in last ==> k in Latest(log) && last[k] == Latest(log)[k])
    && (forall k :: k in Latest(log) && k !in last ==> now - Latest(log)[k] > 2 * cooldown)
  }

  ghost predicate SanitizedAfter(log: seq<Event>, i: int, j: int)
    requires j <= |log|
  {
    exists m :: 0 <= i < m < j && log[m].Sanitized?
  }

  /** Two successful actions on one pod: the later one was chosen a cooldown after the earlier, or else the map was sanitized between. */
  ghost predicate Spaced(log: seq<Event>, cooldown: int)
  {
    forall i, j :: 0 <= i < j < |log| && Success(log[i]) && Success(log[j]) && KeyOf(log[i]) == KeyOf(log[j]) ==>
      log[i].a.time <= log[j].a.chosen.now
      && (SanitizedAfter(log, i, j) || log[j].a.chosen.now - log[i].a.time >= cooldown)
  }

  ghost predicate Timely(log: seq<Event>, now: int)
  {
    forall e :: e in log && e.Acted? ==> e.a.chosen.now <= e.a.time <= now
  }

  ghost predicate InOrder(log: seq<Event>, last: map<string, int>, now: int, cooldown: int)
  {
    Tied(log, last, now, cooldown) && Spaced(log, cooldown) && Timely(log, now)
  }

  /** Acting on this pod now would respect the spacing. */
  ghost predicate Cleared(log: seq<Event>, key: string, now: int, cooldown: int)
  {
    forall i :: 0 <= i < |log| && Success(log[i]) && KeyOf(log[i]) == key ==>
      log[i].a.time <= now && (SanitizedAfter(log, i, |log|) || now - log[i].a.time >= cooldown)
  }

  /** What has not been sanitized away is remembered, if not overwritten by something later. */
  lemma {:induction false} Remembered(log: seq<Event>, now: int, cooldown: int, i: nat)
    requires Spaced(log, cooldown) && Timely(log, now)
    requires i < |log| && Success(log[i]) && !SanitizedAfter(log, i, |log|)
    ensures KeyOf(log[i]) in Latest(log) && log[i].a.time <= Latest(log)[KeyOf(log[i])] <= now
  {
    var init, e := log[..|log| - 1], log[|log| - 1];
    if i < |init| {
      SpacedPrefix(log, cooldown, now);
      assert !e.Sanitized?;
      assert forall m :: 0 <= m < |init| ==> init[m] == log[m];
      assert !SanitizedAfter(init, i, |init|);
      Remembered(init, now, cooldown, i);
    }
    assert e in log;
  }

  lemma SpacedPrefix(log: seq<Event>, cooldown: int, now: int)
    requires log != [] && Spaced(log, cooldown) && Timely(log, now)
    ensures Spaced(log[..|log| - 1], cooldown) && Timely(log[..|log| - 1], now)
  {
    var init := log[..|log| - 1];
    forall i, j | 0 <= i < j < |init| && Success(init[i]) && Success(init[j]) && KeyOf(init[i]) == KeyOf(init[j])
      ensures init[i].a.time <= init[j].a.chosen.now
      ensures SanitizedAfter(init, i, j) || init[j].a.chosen.now - init[i].a.time >= cooldown
    {
      assert init[i] == log[i] && init[j] == log[j];
      if SanitizedAfter(log, i, j) {
        var m :| i < m < j && log[m].Sanitized?;
        assert init[m].Sanitized?;
      }
    }
  }

  /** A check against the map is a check against the log. */
  lemma CheckClears(log: seq<Event>, last: map<string, int>, now: int, cooldown: int, key: string, checked: int)
    requires InOrder(log, last, now, cooldown) && now <= checked && !Recent(Lookup(last, key), checked, cooldown)
    ensures Cleared(log, key, checked, cooldown)
  {
    forall i | 0 <= i < |log| && Success(log[i]) && KeyOf(log[i]) == key
      ensures log[i].a.time <= checked && (SanitizedAfter(log, i, |log|) || checked - log[i].a.time >= cooldown)
    {
      assert log[i] in log;
      if !SanitizedAfter(log, i, |log|) {
        Remembered(log, now, cooldown, i);
      }
    }
  }

  lemma LogFailure(log: seq<Event>, last: map<string, int>, now: int, cooldown: int, a: Action)
    requires InOrder(log, last, now, cooldown) && !a.ok && a.chosen.now <= a.time <= now
    ensures InOrder(log + [Acted(a)], last, now, cooldown)
    ensures forall k, t :: Cleared(log, k, t, cooldown) ==> Cleared(log + [Acted(a)], k, t, cooldown)
  {
    var log' := log + [Acted(a)];
    assert log'[..|log|] == log;
    SpacedGrows(log, Acted(a), cooldown);
    forall k, t | Cleared(log, k, t, cooldown) ensures Cleared(log', k, t, cooldown) {
      ClearedGrows(log, Acted(a), k, t, cooldown);
    }
  }

  lemma LogSuccess(log: seq<Event>, last: map<string, int>, now: int, cooldown: int, a: Action)
    requires InOrder(log, last, now, cooldown) && a.ok && a.chosen.now <= a.time <= now
    requires Cleared(log, PodKey(a.pod), a.chosen.now, cooldown)
    ensures InOrder(log + [Acted(a)], last[PodKey(a.pod) := a.time], now, cooldown)
    ensures forall k, t :: Cleared(log, k, t, cooldown) && k != PodKey(a.pod) ==> Cleared(log + [Acted(a)], k, t, cooldown)
  {
    var log' := log + [Acted(a)];
    assert log'[..|log|] == log;
    SpacedGrows(log, Acted(a), cooldown);
    forall k, t | Cleared(log, k, t, cooldown) && k != PodKey(a.pod) ensures Cleared(log', k, t, cooldown) {
      ClearedGrows(log, Acted(a), k, t, cooldown);
    }
  }

  lemma SpacedGrows(log: seq<Event>, e: Event, cooldown: int)
    requires Spaced(log, cooldown)
    requires Success(e) ==> Cleared(log, KeyOf(e), e.a.chosen.now, cooldown)
    ensures Spaced(log + [e], cooldown)
  {
    var log' := log + [e];
    forall i, j | 0 <= i < j < |log'| && Success(log'[i]) && Success(log'[j]) && KeyOf(log'[i]) == KeyOf(log'[j])
      ensures log'[i].a.time <= log'[j].a.chosen.now
      ensures SanitizedAfter(log', i, j) || log'[j].a.chosen.now - log'[i].a.time >= cooldown
    {
      assert log'[i] == log[i];
      if SanitizedAfter(log, i, j) {
        var m :| i < m < j && log[m].Sanitized?;
        assert log'[m].Sanitized?;
      }
    }
  }

  lemma ClearedGrows(log: seq<Event>, e: Event, key: string, now: int, cooldown: int)
    requires Cleared(log, key, now, cooldown) && !(Success(e) && KeyOf(e) == key)
    ensures Cleared(log + [e], key, now, cooldown)
  {
    var log' := log + [e];
    forall i | 0 <= i < |log'| && Success(log'[i]) && KeyOf(log'[i]) == key
      ensures log'[i].a.time <= now && (SanitizedAfter(log', i, |log'|) || now - log'[i].a.time >= cooldown)
    {
      assert log'[i] == log[i];
      if SanitizedAfter(log, i, |log|) {
        var m :| i < m < |log| && log[m].Sanitized?;
        assert log'[m].Sanitized?;
      }
    }
  }

  // ---------- The pods of a pass ----------

  function AllPods(lists: seq<seq<Pod>>): multiset<Pod>
  {
    if lists == [] then multiset{} else multiset(lists[0]) + AllPods(lists[1..])
  }

  /** No two listed pods share a namespace and a name, and no list repeats one. */
  predicate NoPodTwice(lists: seq<seq<Pod>>)
  {
    && (forall p :: p in AllPods(lists) ==> AllPods(lists)[p] == 1)
    && (forall p, q :: p in AllPods(lists) && q in AllPods(lists) && PodKey(p) == PodKey(q) ==> p == q)
  }

  lemma {:induction false} TakeFirst(lists: seq<seq<Pod>>, i: nat)
    requires i < |lists| && lists[i] != []
    ensures AllPods(lists) == AllPods(lists[i := lists[i][1..]]) + multiset{lists[i][0]}
  {
    var after := lists[i := lists[i][1..]];
    if i == 0 {
      assert after[1..] == lists[1..];
      assert lists[0] == [lists[0][0]] + lists[0][1..];
    } else {
      TakeFirst(lists[1..], i - 1);
      assert after[1..] == lists[1..][i - 1 := lists[1..][i - 1][1..]];
    }
  }

  /** These are the candidates among the listed pods, each as often as it was listed. */
  ghost predicate AreCandidates(v: View, lists: seq<seq<Pod>>, candidates: seq<Pod>)
  {
    forall p :: multiset(candidates)[p] == if Candidate(v, p) then AllPods(lists)[p] else 0
  }

  /** The chosen pods are the first of the candidates in the order of the classes, five at most. */
  ghost predicate AreLeast(candidates: seq<Pod>, chosen: seq<Pod>)
  {
    && (forall i, j :: 0 <= i < j < |chosen| ==> NoLater(chosen[i].priorityClass, chosen[j].priorityClass))
    && multiset(chosen) <= multiset(candidates)
    && |chosen| == (if |candidates| > 5 then 5 else |candidates|)
    && forall p, c :: p in multiset(candidates) - multiset(chosen) && c in chosen ==> NoLater(c.priorityClass, p.priorityClass)
  }

  /** What a pass of the optimizer reads and writes. */
  datatype Memory = Memory(last: map<string, int>, log: seq<Event>, strain: Option<Strain>)

  /**
   What one pass does: a failed listing of the nodes ends it, and so does a cluster without strain; else
   the calls are exactly those for the least of the candidates, and exactly the successes are recorded.
   */
  ghost predicate PassMade(s: Settings, m: Memory, m': Memory, nodes: Option<seq<Node>>, lists: seq<seq<Pod>>,
                           sight: Pod -> Sight, reply: Pod -> Reply, chosen: seq<Pod>, candidates: seq<Pod>)
  {
    if nodes.None? then
      m' == m && chosen == []
    else
      && m'.strain.Some? && IsStrainOf(m'.strain.value, nodes.value, s.threshold)
      && if !m'.strain.value.hasStrain then
           m' == m.(strain := m'.strain) && chosen == []
         else
           var v := View(s, m'.strain.value, m.last, sight);
           && AreCandidates(v, lists, candidates) && AreLeast(candidates, chosen)
           && m'.log == m.log + Events(v, chosen, reply) && m'.last == Recorded(v, m.last, chosen, reply)
  }

  lemma {:induction false} ListedIn(lists: seq<seq<Pod>>, p: Pod)
    ensures p in AllPods(lists) <==> exists list :: list in lists && p in list
  {
    if lists != [] {
      ListedIn(lists[1..], p);
      assert lists == [lists[0]] + lists[1..];
      assert p in multiset(lists[0]) <==> p in lists[0];
    }
  }

  /**
   Who is chosen: only listed candidates and at most five; and a listed candidate is left out only when five
   others are chosen, none of them of a class that comes later than its own.
   */
  lemma PassMeaning(s: Settings, m: Memory, m': Memory, nodes: Option<seq<Node>>, lists: seq<seq<Pod>>,
                    sight: Pod -> Sight, reply: Pod -> Reply, chosen: seq<Pod>, candidates: seq<Pod>, p: Pod, q: Pod)
    requires PassMade(s, m, m', nodes, lists, sight, reply, chosen, candidates)
    ensures nodes.None? ==> m' == m && chosen == []
    ensures nodes.Some? ==> m'.strain.Some? && (m'.strain.value.hasStrain <==> Reaches(|Pressured(nodes.value)|, |nodes.value|, s.threshold))
    ensures nodes.Some? && !m'.strain.value.hasStrain ==> m'.log == m.log && m'.last == m.last && chosen == []
    ensures nodes.Some? && m'.strain.value.hasStrain ==>
              var v := View(s, m'.strain.value, m.last, sight);
              && |chosen| <= 5
              && (p in chosen ==> Candidate(v, p) && exists list :: list in lists && p in list)
              && (q !in chosen && Candidate(v, q) && (exists list :: list in lists && q in list) ==>
                    |chosen| == 5 && (p in chosen ==> NoLater(p.priorityClass, q.priorityClass)))
              && m.log <= m'.log && (forall e :: e in m'.log[|m.log|..] ==> e.Acted? && e.a.pod in chosen)
              && (p in chosen && !IsTest(s.pattern, reply(p).names, p.namespace) ==>
                    exists e :: e in m'.log[|m.log|..] && e.Acted? && e.a.pod == p && e.a.verb.Evict? && e.a.ok == reply(p).evicted)
  {
    if nodes.Some? && m'.strain.value.hasStrain {
      EventsMeaning(View(s, m'.strain.value, m.last, sight), chosen, reply, p);
      assert m'.log[|m.log|..] == Events(View(s, m'.strain.value, m.last, sight), chosen, reply);
    }
    ListedIn(lists, p);
    ListedIn(lists, q);
    if nodes.Some? && m'.strain.value.hasStrain {
      var v := View(s, m'.strain.value, m.last, sight);
      assert p in chosen <==> p in multiset(chosen);
      assert q in chosen <==> q in multiset(chosen);
      assert multiset(candidates)[p] >= multiset(chosen)[p];
      if q !in chosen && Candidate(v, q) && q in AllPods(lists) {
        assert multiset(candidates)[q] > 0 && q in multiset(candidates) - multiset(chosen);
        SomeLeftOut(candidates, chosen, q);
      }
    }
  }

  /** Calls are made for chosen pods only, and for each that is not protected by then, an eviction first. */
  lemma {:induction false} EventsMeaning(v: View, chosen: seq<Pod>, reply: Pod -> Reply, p: Pod)
    ensures forall e :: e in Events(v, chosen, reply) ==> e.Acted? && e.a.pod in chosen
    ensures p in chosen && !IsTest(v.s.pattern, reply(p).names, p.namespace) ==>
              exists e :: e in Events(v, chosen, reply) && e.Acted? && e.a.pod == p && e.a.verb.Evict? && e.a.ok == reply(p).evicted
  {
    if chosen != [] {
      var init, last := chosen[..|chosen| - 1], chosen[|chosen| - 1];
      EventsMeaning(v, init, reply, p);
      assert chosen == init + [last];
      var before, events := Events(v, init, reply), EventsFor(v, last, reply(last));
      if p == last && !IsTest(v.s.pattern, reply(p).names, p.namespace) {
        assert events[0] in before + events;
      } else if p in init && !IsTest(v.s.pattern, reply(p).names, p.namespace) {
        var e :| e in before && e.Acted? && e.a.pod == p && e.a.verb.Evict? && e.a.ok == reply(p).evicted;
        assert e in before + events;
      }
    }
  }

  lemma SomeLeftOut(candidates: seq<Pod>, chosen: seq<Pod>, q: Pod)
    requires multiset(chosen) <= multiset(candidates) && q in multiset(candidates) - multiset(chosen)
    ensures |chosen| < |candidates|
  {
    assert multiset(candidates) == multiset(chosen) + (multiset(candidates) - multiset(chosen));
    assert |multiset(candidates)| == |candidates| && |multiset(chosen)| == |chosen|;
  }

  predicate DistinctKeys(pods: seq<Pod>)
  {
    forall i, j :: 0 <= i < j < |pods| ==> PodKey(pods[i]) != PodKey(pods[j])
  }

  lemma ChosenKeysDiffer(v: View, lists: seq<seq<Pod>>, candidates: seq<Pod>, chosen: seq<Pod>)
    requires NoPodTwice(lists) && AreCandidates(v, lists, candidates) && multiset(chosen) <= multiset(candidates)
    ensures DistinctKeys(chosen) && forall p :: p in chosen ==> Candidate(v, p) && p in AllPods(lists)
  {
    forall p | p in chosen ensures Candidate(v, p) && p in AllPods(lists) {
      assert p in multiset(chosen) && multiset(candidates)[p] > 0;
    }
    forall i, j | 0 <= i < j < |chosen| ensures PodKey(chosen[i]) != PodKey(chosen[j]) {
      assert chosen[i] in chosen && chosen[j] in chosen;
      assert multiset(chosen)[chosen[i]] <= multiset(candidates)[chosen[i]] <= 1;
      if chosen[i] == chosen[j] {
        TwiceIn(chosen, i, j);
      }
    }
  }

  lemma TwiceIn(pods: seq<Pod>, i: nat, j: nat)
    requires i < j < |pods| && pods[i] == pods[j]
    ensures multiset(pods)[pods[i]] >= 2
  {
    assert pods == pods[..j] + [pods[j]] + pods[j + 1..];
    assert pods[..j][i] == pods[i];
    assert pods[i] in multiset(pods[..j]);
  }

  // ---------- The healer's own code ----------

  class Optimizer {
    const settings: Settings
    const ledger: Ledger
    const clock: Clock
    /** Every Evict and Delete call the optimizer ever made, and the sanitizings between them. */
    ghost var log: seq<Event>

    constructor (ledger: Ledger, clock: Clock, pattern: string, threshold: real)
      requires ledger.optimizedPods == map[]
      ensures this.ledger == ledger && this.clock == clock
      ensures settings == Settings(pattern, ledger.cooldown, threshold) && log == []
      ensures Valid()
    {
      this.ledger, this.clock := ledger, clock;
      settings := Settings(pattern, ledger.cooldown, threshold);
      log := [];
    }

    /** Over runs: every action so far was safe, and the map and the log account for each other and respect the cooldown. */
    ghost predicate Valid()
      reads this, ledger, clock
    {
      AllSafe() && InOrder(log, ledger.optimizedPods, clock.now, settings.cooldown) && settings.cooldown == ledger.cooldown
    }

    ghost predicate AllSafe()
      reads this
    {
      forall e :: e in log && e.Acted? ==> Safe(settings, e.a)
    }

    ghost function Now(): Memory
      reads this, ledger
    {
      Memory(ledger.optimizedPods, log, ledger.currentStrain)
    }

    /** isTestNamespace. */
    method IsTestNamespace(names: seq<string>, namespace: string) returns (test: bool)
      ensures test == IsTest(settings.pattern, names, namespace)
      ensures test <==> (settings.pattern != "" && Glob(settings.pattern, namespace)) || exists w :: w in names && '*' in w && Glob(w, namespace)
    {
      var explicit: seq<string> := if settings.pattern != "" then [settings.pattern] else [];
      var wildcards := CollectWildcards(names);
      test := SomePatternMatches(explicit + wildcards, namespace);
      EitherPattern(explicit, wildcards, namespace);
      TestMeaning(settings.pattern, names, namespace);
    }

    /** The filter each goroutine applies to a pod. */
    method Consider(pod: Pod, strain: Strain, sight: Pod -> Sight) returns (evict: bool)
      ensures evict == Candidate(View(settings, strain, ledger.optimizedPods, sight), pod)
    {
      if pod.owners == 0 {
        return false;
      }
      var key := PodKey(pod);
      if key in ledger.optimizedPods {
        if sight(pod).now - ledger.optimizedPods[key] < settings.cooldown {
          return false;
        }
      }
      var test := IsTestNamespace(sight(pod).names, pod.namespace);
      if test {
        return false;
      }
      if strain.hasStrain {
        if ShouldEvict(pod, strain, sight(pod).now) {
          return true;
        }
        return Priority(pod) < 50;
      }
      return ShouldEvict(pod, strain, sight(pod).now);
    }

    /**
     The goroutines that filter each namespace's pods, in any interleaving. The list and the clock are
     read anew for every pod, so `sight` may say anything for each.
     */
    method Collect(lists: seq<seq<Pod>>, strain: Strain, sight: Pod -> Sight) returns (candidates: seq<Pod>)
      ensures AreCandidates(View(settings, strain, ledger.optimizedPods, sight), lists, candidates)
    {
      candidates := [];
      var rest := lists;
      while exists i :: 0 <= i < |rest| && rest[i] != []
        invariant AtWork(View(settings, strain, ledger.optimizedPods, sight), lists, rest, candidates)
        decreases AllPods(rest)
      {
        rest, candidates := FilterNext(lists, strain, sight, rest, candidates);
      }
      NothingLeft(rest);
    }

    /** What the goroutines have filtered and what they have left add up to what was listed. */
    ghost predicate AtWork(v: View, lists: seq<seq<Pod>>, rest: seq<seq<Pod>>, candidates: seq<Pod>)
    {
      forall p :: multiset(candidates)[p] + (if Candidate(v, p) then AllPods(rest)[p] else 0)
                     == if Candidate(v, p) then AllPods(lists)[p] else 0
    }

    /** Some goroutine with pods left takes its next one. */
    method FilterNext(lists: seq<seq<Pod>>, strain: Strain, sight: Pod -> Sight,
                      rest: seq<seq<Pod>>, candidates: seq<Pod>)
      returns (rest': seq<seq<Pod>>, candidates': seq<Pod>)
      requires exists i :: 0 <= i < |rest| && rest[i] != []
      requires AtWork(View(settings, strain, ledger.optimizedPods, sight), lists, rest, candidates)
      ensures AtWork(View(settings, strain, ledger.optimizedPods, sight), lists, rest', candidates')
      ensures AllPods(rest') < AllPods(rest)
    {
      var i :| 0 <= i < |rest| && rest[i] != [];
      var pod := rest[i][0];
      var evict := Consider(pod, strain, sight);
      candidates' := if evict then candidates + [pod] else candidates;
      TakeFirst(rest, i);
      rest' := rest[i := rest[i][1..]];
    }

    static lemma {:induction false} NothingLeft(rest: seq<seq<Pod>>)
      requires forall i :: 0 <= i < |rest| ==> rest[i] == []
      ensures AllPods(rest) == multiset{}
    {
      if rest != [] {
        NothingLeft(rest[1..]);
      }
    }

    /** evictPodForOptimization. */
    method EvictPod(ghost v: View, pod: Pod, reply: Reply)
      requires v.s == settings && Candidate(v, pod) && AllSafe()
      modifies this`log, ledger`optimizedPods
      ensures AllSafe()
      ensures log == old(log) + EventsFor(v, pod, reply)
      ensures ledger.optimizedPods == RecordedOne(v, old(ledger.optimizedPods), pod, reply)
      ensures var key := pod.namespace + "/" + pod.name;
              var seen := if key in v.last then Some(v.last[key]) else None;
              var test := (settings.pattern != "" && Glob(settings.pattern, pod.namespace)) || exists w :: w in reply.names && '*' in w && Glob(w, pod.namespace);
              var evict := Acted(Action(pod, v.strain, seen, v.sight(pod), reply.names, Evict, reply.evicted, reply.now));
              var delete := Acted(Action(pod, v.strain, seen, v.sight(pod), reply.names, Verb.Delete, reply.deleted, reply.now));
              && (test ==> log == old(log) && ledger.optimizedPods == old(ledger.optimizedPods))
              && (!test && reply.evicted ==> log == old(log) + [evict])
              && (!test && !reply.evicted ==> log == old(log) + [evict, delete])
              && (!test ==> ledger.optimizedPods ==
                            if reply.evicted || reply.deleted then old(ledger.optimizedPods)[key := reply.now] else old(ledger.optimizedPods))
    {
      var test := IsTestNamespace(reply.names, pod.namespace);
      if test {
        assert log + [] == log;
        return;
      }
      CandidateIsSafe(v, pod, reply, Evict, reply.evicted);
      log := log + [Acted(ActionOn(v, pod, reply, Evict, reply.evicted))];
      if !reply.evicted {
        CandidateIsSafe(v, pod, reply, Verb.Delete, reply.deleted);
        log := log + [Acted(ActionOn(v, pod, reply, Verb.Delete, reply.deleted))];
        assert log == old(log) + EventsFor(v, pod, reply);
        if reply.deleted {
          ledger.optimizedPods := ledger.optimizedPods[PodKey(pod) := reply.now];
        }
      } else {
        ledger.optimizedPods := ledger.optimizedPods[PodKey(pod) := reply.now];
      }
    }

    /**
     checkAndOptimizeResources, for the cluster's nodes and pods as listed, the pods seen and acted on
     at times between the start of the pass and its `end`.
     */
    method CheckAndOptimize(nodes: Option<seq<Node>>, lists: seq<seq<Pod>>, sight: Pod -> Sight, reply: Pod -> Reply, end: int)
      returns (chosen: seq<Pod>, ghost candidates: seq<Pod>)
      requires Valid() && NoPodTwice(lists) && clock.now <= end
      requires forall p :: p in AllPods(lists) ==> clock.now <= sight(p).now <= reply(p).now <= end
      modifies this`log, ledger`optimizedPods, ledger`currentStrain, clock
      ensures Valid() && old(clock.now) <= clock.now
      ensures PassMade(settings, old(Now()), Now(), nodes, lists, sight, reply, chosen, candidates)
    {
      chosen, candidates := [], [];
      if nodes.None? {
        return;
      }
      var strain := IsClusterUnderStrain(nodes.value, settings.threshold);
      ledger.currentStrain := Some(strain);
      if !strain.hasStrain {
        return;
      }
      ghost var v := View(settings, strain, ledger.optimizedPods, sight);
      var nonTestPods := Collect(lists, strain, sight);
      candidates := nonTestPods;
      var a := new Pod[|nonTestPods|](i requires 0 <= i < |nonTestPods| => nonTestPods[i]);
      assert a[..] == nonTestPods;
      chosen := PickVictims(a);
      ChosenKeysDiffer(v, lists, candidates, chosen);
      EvictAll(v, chosen, reply, end);
    }

    method EvictAll(ghost v: View, chosen: seq<Pod>, reply: Pod -> Reply, end: int)
      requires Valid() && v.s == settings && v.last == ledger.optimizedPods && DistinctKeys(chosen) && clock.now <= end
      requires forall p :: p in chosen ==> Candidate(v, p) && clock.now <= v.sight(p).now <= reply(p).now <= end
      modifies this`log, ledger`optimizedPods, clock
      ensures Valid() && log == old(log) + Events(v, chosen, reply) && clock.now == end
      ensures ledger.optimizedPods == Recorded(v, old(ledger.optimizedPods), chosen, reply)
    {
      ghost var before := log;
      AllClear(v, chosen, reply, end);
      clock.AdvanceTo(end);
      assert before + [] == before;
      for k := 0 to |chosen|
        invariant Evicting(v, chosen, reply, before, k) && clock.now == end
      {
        EvictNext(v, chosen, reply, before, k);
      }
      assert chosen[..|chosen|] == chosen;
    }

    /** At the start of the evictions the log clears every chosen pod. */
    lemma AllClear(v: View, chosen: seq<Pod>, reply: Pod -> Reply, end: int)
      requires Valid() && v.s == settings && v.last == ledger.optimizedPods && clock.now <= end
      requires forall p :: p in chosen ==> Candidate(v, p) && clock.now <= v.sight(p).now <= reply(p).now <= end
      ensures InOrder(log, ledger.optimizedPods, end, settings.cooldown)
      ensures forall p :: p in chosen ==> Cleared(log, PodKey(p), v.sight(p).now, settings.cooldown)
    {
      forall p | p in chosen ensures Cleared(log, PodKey(p), v.sight(p).now, settings.cooldown) {
        CheckClears(log, ledger.optimizedPods, clock.now, settings.cooldown, PodKey(p), v.sight(p).now);
      }
    }

    ghost predicate Evicting(v: View, chosen: seq<Pod>, reply: Pod -> Reply, before: seq<Event>, k: nat)
      requires k <= |chosen|
      reads this, ledger, clock
    {
      && Valid() && v.s == settings && DistinctKeys(chosen)
      && log == before + Events(v, chosen[..k], reply)
      && ledger.optimizedPods == Recorded(v, v.last, chosen[..k], reply)
      && (forall p :: p in chosen ==> Candidate(v, p) && v.sight(p).now <= reply(p).now <= clock.now)
      && (forall i :: k <= i < |chosen| ==> Cleared(log, PodKey(chosen[i]), v.sight(chosen[i]).now, settings.cooldown))
    }

    method EvictNext(ghost v: View, chosen: seq<Pod>, reply: Pod -> Reply, ghost before: seq<Event>, k: nat)
      requires k < |chosen| && Evicting(v, chosen, reply, before, k)
      modifies this`log, ledger`optimizedPods
      ensures Evicting(v, chosen, reply, before, k + 1)
    {
      var pod := chosen[k];
      assert pod in chosen;
      NextChosen(v, v.last, chosen, k, reply, before);
      LogGrows(v, log, ledger.optimizedPods, clock.now, pod, reply(pod));
      EvictPod(v, pod, reply(pod));
    }

    /** The memory guard has emptied the map. */
    ghost method NoteSanitized()
      requires AllSafe() && Spaced(log, settings.cooldown) && Timely(log, clock.now)
      requires ledger.optimizedPods == map[] && settings.cooldown == ledger.cooldown
      modifies this`log
      ensures Valid() && log == old(log) + [Sanitized]
    {
      SpacedGrows(log, Sanitized, settings.cooldown);
      log := log + [Sanitized];
    }
  }

  /** The passing of time keeps the log in order. */
  lemma LaterIsInOrder(log: seq<Event>, last: map<string, int>, now: int, later: int, cooldown: int)
    requires InOrder(log, last, now, cooldown) && now <= later
    ensures InOrder(log, last, later, cooldown)
  {
  }

  /** The cleaner forgets only what is old enough. */
  lemma PrunedIsInOrder(log: seq<Event>, last: map<string, int>, now: int, later: int, cooldown: int)
    requires InOrder(log, last, now, cooldown) && now <= later
    ensures InOrder(log, Pruned(last, later, cooldown), later, cooldown)
  {
  }

  /** One pod's calls keep the log in order and leave every other pod cleared that was. */
  lemma LogGrows(v: View, log: seq<Event>, last: map<string, int>, now: int, pod: Pod, reply: Reply)
    requires InOrder(log, last, now, v.s.cooldown) && v.sight(pod).now <= reply.now <= now
    requires Cleared(log, PodKey(pod), v.sight(pod).now, v.s.cooldown)
    ensures InOrder(log + EventsFor(v, pod, reply), RecordedOne(v, last, pod, reply), now, v.s.cooldown)
    ensures forall k, t :: Cleared(log, k, t, v.s.cooldown) && k != PodKey(pod) ==>
                             Cleared(log + EventsFor(v, pod, reply), k, t, v.s.cooldown)
  {
    var first := ActionOn(v, pod, reply, Evict, reply.evicted);
    var second := ActionOn(v, pod, reply, Verb.Delete, reply.deleted);
    if IsTest(v.s.pattern, reply.names, pod.namespace) {
      assert log + [] == log;
    } else if reply.evicted {
      LogSuccess(log, last, now, v.s.cooldown, first);
    } else {
      LogFailure(log, last, now, v.s.cooldown, first);
      if reply.deleted {
        LogSuccess(log + [Acted(first)], last, now, v.s.cooldown, second);
      } else {
        LogFailure(log + [Acted(first)], last, now, v.s.cooldown, second);
      }
      assert log + [Acted(first)] + [Acted(second)] == log + EventsFor(v, pod, reply);
    }
  }
}
