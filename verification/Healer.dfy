/**
 The janitor and the optimizer of one healer, which share its memory, its cleaner, its memory guard and
 the clock. Whatever happens in whatever order, both keep what they promise.
 */
module Healer {
  import opened Text
  import opened CrdSpec
  import opened CrdListing
  import opened CrdVisits
  import opened Staleness
  import opened PodPressure
  import opened HealLedger
  import opened Cooldown
  import opened CrdJanitor
  import opened Eviction

  class Controller {
    const janitor: Janitor
    const optimizer: Optimizer

    constructor (janitor: Janitor, optimizer: Optimizer)
      requires janitor.Valid() && optimizer.Valid() && janitor.ledger == optimizer.ledger && janitor.clock == optimizer.clock
      ensures Valid() && this.janitor == janitor && this.optimizer == optimizer
    {
      this.janitor, this.optimizer := janitor, optimizer;
      HistoryIsSpaced(janitor.trace);
    }

    /** Counters equal to the successful Deletes, every eviction safe, and no key or pod acted on twice within the cooldown unless sanitized between. */
    ghost predicate Valid()
      reads this, janitor, janitor.ledger, janitor.api, janitor.clock, optimizer, optimizer.ledger, optimizer.clock
    {
      && janitor.ledger == optimizer.ledger && janitor.clock == optimizer.clock
      && janitor.Valid() && HistorySpaced(Last(janitor.trace))
      && optimizer.Valid()
    }

    method CheckType(gvr: Gvr, watched: seq<string>, cluster: Option<seq<string>>, answers: (nat, string) -> Option<seq<Resource>>)
      returns (ghost visits: seq<Visit>)
      requires Valid() && SlashFree(gvr, ListsOf(watched, cluster, answers))
      modifies janitor`trace, janitor.ledger`trackedCRDs, janitor.ledger`cleanupCounts, janitor.ledger`healedCRDs, janitor.api, janitor.clock
      ensures Valid()
      ensures janitor.Performed(Activity.CheckType(gvr, watched, cluster, answers), old(janitor.Now()), janitor.Now(), visits)
    {
      ghost var before := janitor.clock.now;
      visits := janitor.CheckCRDResources(gvr, watched, cluster, answers);
      HistoryIsSpaced(janitor.trace);
      LaterIsInOrder(optimizer.log, optimizer.ledger.optimizedPods, before, optimizer.clock.now, optimizer.settings.cooldown);
    }

    method Optimize(nodes: Option<seq<Node>>, lists: seq<seq<Pod>>, sight: Pod -> Sight, reply: Pod -> Reply, end: int)
      returns (chosen: seq<Pod>, ghost candidates: seq<Pod>)
      requires Valid() && NoPodTwice(lists) && optimizer.clock.now <= end
      requires forall p :: p in AllPods(lists) ==> optimizer.clock.now <= sight(p).now <= reply(p).now <= end
      modifies janitor`trace, optimizer`log, optimizer.ledger`optimizedPods, optimizer.ledger`currentStrain, optimizer.clock
      ensures Valid()
      ensures PassMade(optimizer.settings, old(optimizer.Now()), optimizer.Now(), nodes, lists, sight, reply, chosen, candidates)
      ensures Last(janitor.trace).history == old(Last(janitor.trace).history)
    {
      chosen, candidates := optimizer.CheckAndOptimize(nodes, lists, sight, reply, end);
      janitor.CatchUp();
      HistoryIsSpaced(janitor.trace);
    }

    method CleanerTick()
      requires Valid()
      modifies janitor`trace, janitor.ledger, janitor.clock
      ensures Valid() && janitor.Performed(Activity.CleanerTick, old(janitor.Now()), janitor.Now(), [])
      ensures optimizer.Now() == old(optimizer.Now()).(last := Pruned(old(optimizer.Now().last), optimizer.clock.now, optimizer.settings.cooldown))
      ensures janitor.ledger.healedPods == Pruned(old(janitor.ledger.healedPods), janitor.clock.now, janitor.ledger.cooldown)
      ensures janitor.ledger.healedNodes == Pruned(old(janitor.ledger.healedNodes), janitor.clock.now, janitor.ledger.cooldown)
      ensures janitor.ledger.healedVMs == Pruned(old(janitor.ledger.healedVMs), janitor.clock.now, janitor.ledger.cooldown)
    {
      ghost var before, last := janitor.clock.now, optimizer.ledger.optimizedPods;
      janitor.Prune();
      HistoryIsSpaced(janitor.trace);
      PrunedIsInOrder(optimizer.log, last, before, optimizer.clock.now, optimizer.settings.cooldown);
    }

    method Sanitize()
      requires Valid()
      modifies janitor`trace, optimizer`log, janitor.ledger
      ensures Valid() && janitor.Performed(Activity.Sanitize, old(janitor.Now()), janitor.Now(), [])
      ensures optimizer.Now() == Memory(map[], old(optimizer.log) + [Sanitized], None)
      ensures janitor.ledger.healedPods == map[] && janitor.ledger.healedNodes == map[] && janitor.ledger.healedVMs == map[]
    {
      janitor.Forget();
      HistoryIsSpaced(janitor.trace);
      optimizer.NoteSanitized();
    }
  }
}
