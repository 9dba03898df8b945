/**
 The healer's memory: five maps of heal times, the set of custom resources seen, the cleaner that
 prunes them every quarter of an hour, and the memory guard that empties them.
 */
module HealLedger {
  import opened Text
  import opened Cooldown
  import opened Staleness
  import opened PodPressure

  const TRACKED_LIMIT: nat := 5000

  /** How many entries one trim removes. */
  function TrimCount(size: nat): nat
  {
    if size > TRACKED_LIMIT then size * 3 / 10 else 0
  }

  class Ledger {
    const cooldown: int
    var healedPods: map<string, int>
    var healedNodes: map<string, int>
    var healedVMs: map<string, int>
    var healedCRDs: map<string, int>
    var optimizedPods: map<string, int>
    var trackedCRDs: set<string>
    var cleanupCounts: map<string, nat>
    var currentStrain: Option<Strain>

    constructor (cooldown: int)
      ensures this.cooldown == cooldown
      ensures healedPods == map[] && healedNodes == map[] && healedVMs == map[] && healedCRDs == map[] && optimizedPods == map[]
      ensures trackedCRDs == {} && cleanupCounts == map[] && currentStrain == None
    {
      this.cooldown := cooldown;
      healedPods, healedNodes, healedVMs, healedCRDs, optimizedPods := map[], map[], map[], map[], map[];
      trackedCRDs, cleanupCounts, currentStrain := {}, map[], None;
    }

    /** The cleaner's loop over one map: entries are deleted while the map is being walked, in any order. */
    method Prune(heals: map<string, int>, now: int) returns (kept: map<string, int>)
      ensures kept == Pruned(heals, now, cooldown)
      ensures forall k :: k in kept <==> k in heals && now - heals[k] <= 2 * cooldown
      ensures forall k :: k in kept ==> kept[k] == heals[k]
    {
      kept := heals;
      var rest := heals.Keys;
      while rest != {}
        invariant rest <= heals.Keys
        invariant kept == map k | k in heals && (k in rest || !(now - heals[k] > 2 * cooldown)) :: heals[k]
      {
        var k :| k in rest;
        rest := rest - {k};
        if now - heals[k] > 2 * cooldown {
          kept := kept - {k};
        }
      }
    }

    /** The safety net on the tracked set: past the limit, drop three tenths of it, whichever the map yields first. */
    method TrimTracked()
      modifies this`trackedCRDs
      ensures trackedCRDs <= old(trackedCRDs)
      ensures |trackedCRDs| == |old(trackedCRDs)| - TrimCount(|old(trackedCRDs)|)
      ensures |trackedCRDs| == |old(trackedCRDs)| - if |old(trackedCRDs)| > 5000 then |old(trackedCRDs)| * 3 / 10 else 0
    {
      if |trackedCRDs| > TRACKED_LIMIT {
        var target := |trackedCRDs| * 3 / 10;
        var removed := 0;
        while removed < target
          invariant 0 <= removed <= target && trackedCRDs <= old(trackedCRDs)
          invariant |trackedCRDs| == |old(trackedCRDs)| - removed
        {
          var k :| k in trackedCRDs;
          trackedCRDs := trackedCRDs - {k};
          removed := removed + 1;
        }
      }
    }

    /** One tick of the cleaner. */
    method CleanerTick(now: int)
      modifies this`healedPods, this`healedNodes, this`healedVMs, this`healedCRDs, this`optimizedPods, this`trackedCRDs
      ensures healedPods == Pruned(old(healedPods), now, cooldown)
      ensures healedNodes == Pruned(old(healedNodes), now, cooldown)
      ensures healedVMs == Pruned(old(healedVMs), now, cooldown)
      ensures healedCRDs == Pruned(old(healedCRDs), now, cooldown)
      ensures optimizedPods == Pruned(old(optimizedPods), now, cooldown)
      ensures trackedCRDs <= old(trackedCRDs)
      ensures |trackedCRDs| == |old(trackedCRDs)| - TrimCount(|old(trackedCRDs)|)
    {
      healedPods := Prune(healedPods, now);
      healedNodes := Prune(healedNodes, now);
      healedVMs := Prune(healedVMs, now);
      healedCRDs := Prune(healedCRDs, now);
      optimizedPods := Prune(optimizedPods, now);
      TrimTracked();
    }

    /** SanitizeReferences: every map is emptied except the cleanup counts, and the strain is forgotten. */
    method SanitizeReferences()
      modifies this
      ensures healedPods == map[] && healedNodes == map[] && healedVMs == map[] && healedCRDs == map[] && optimizedPods == map[]
      ensures trackedCRDs == {} && cleanupCounts == old(cleanupCounts) && currentStrain == None
    {
      healedPods, healedNodes, healedVMs, healedCRDs := map[], map[], map[], map[];
      trackedCRDs := {};
      optimizedPods := map[];
      currentStrain := None;
    }

    /** checkAndHealPod: `checked` and `recorded` are the clock at the check and at the record. */
    method CheckAndHealPod(key: string, owned: bool, unhealthy: bool, checked: int, recorded: int) returns (healed: bool)
      modifies this`healedPods
      ensures healed <==> owned && unhealthy && !(key in old(healedPods) && checked - old(healedPods)[key] < cooldown)
      ensures healedPods == if healed then old(healedPods)[key := recorded] else old(healedPods)
    {
      if !owned {
        return false;
      }
      if key in healedPods {
        if checked - healedPods[key] < cooldown {
          return false;
        }
      }
      healed := unhealthy;
      if healed {
        healedPods := healedPods[key := recorded];
      }
    }

    /** checkAndHealNode. */
    method CheckAndHealNode(key: string, unhealthy: bool, checked: int, recorded: int) returns (healed: bool)
      modifies this`healedNodes
      ensures healed <==> unhealthy && !(key in old(healedNodes) && checked - old(healedNodes)[key] < cooldown)
      ensures healedNodes == if healed then old(healedNodes)[key := recorded] else old(healedNodes)
    {
      if key in healedNodes {
        if checked - healedNodes[key] < cooldown {
          return false;
        }
      }
      healed := unhealthy;
      if healed {
        healedNodes := healedNodes[key := recorded];
      }
    }

    /** checkAndHealVirtualMachine: health is only logged; age and cooldown decide. */
    method CheckAndHealVM(key: string, created: int, unhealthy: bool, checked: int, recorded: int) returns (healed: bool)
      modifies this`healedVMs
      ensures healed <==> checked - created > 360_000_000_000 && !(key in old(healedVMs) && checked - old(healedVMs)[key] < cooldown)
      ensures healedVMs == if healed then old(healedVMs)[key := recorded] else old(healedVMs)
    {
      if key in healedVMs {
        if checked - healedVMs[key] < cooldown {
          return false;
        }
      }
      healed := checked - created > 6 * MINUTE;
      if healed {
        healedVMs := healedVMs[key := recorded];
      }
    }
  }

  // ---------- How large the tracked set can grow ----------

  /** The cycle's sizes: up to `g` keys arrive after each tick, and each tick trims. */
  predicate IsGrowth(sizes: seq<nat>, g: nat)
  {
    forall i :: 0 <= i < |sizes| - 1 ==>
      var trimmed := sizes[i] - TrimCount(sizes[i]);
      sizes[i + 1] <= trimmed + g
  }

  predicate KeepsBound(bound: nat, g: nat)
  {
    forall size: nat :: size <= bound ==> size - TrimCount(size) + g <= bound
  }

  lemma TrimIsMonotone(a: nat, b: nat)
    requires a <= b && (a > TRACKED_LIMIT || b <= TRACKED_LIMIT)
    ensures a - TrimCount(a) <= b - TrimCount(b)
  {
  }

  /** A bound of at least the limit holds from tick to tick exactly under these two conditions. */
  lemma BoundKeptIff(bound: nat, g: nat)
    requires bound >= TRACKED_LIMIT
    ensures KeepsBound(bound, g) <==> TRACKED_LIMIT + g <= bound && g <= bound * 3 / 10
  {
    if KeepsBound(bound, g) {
      assert TRACKED_LIMIT - TrimCount(TRACKED_LIMIT) + g <= bound;
      assert bound - TrimCount(bound) + g <= bound;
    }
    if TRACKED_LIMIT + g <= bound && g <= bound * 3 / 10 {
      forall size: nat | size <= bound ensures size - TrimCount(size) + g <= bound {
        if size > TRACKED_LIMIT {
          TrimIsMonotone(size, bound);
        }
      }
    }
  }

  /** Once at or below such a bound, the size never exceeds it again. */
  lemma {:induction false} GrowthIsBounded(sizes: seq<nat>, g: nat, bound: nat, i: nat)
    requires IsGrowth(sizes, g) && i < |sizes| && sizes[0] <= bound
    requires TRACKED_LIMIT + g <= bound && g <= bound * 3 / 10
    ensures sizes[i] <= bound
  {
    if i > 0 {
      GrowthIsBounded(sizes, g, bound, i - 1);
      BoundKeptIff(bound, g);
      var before := sizes[i - 1];
      assert sizes[i - 1 + 1] <= before - TrimCount(before) + g;
    }
  }
}
