/**
 The custom resource janitor: one attempt, one session of attempts, one resource, one pass, a run.
 */
module CrdJanitor {
  import opened Text
  import opened CrdSpec
  import opened CrdListing
  import opened CrdVisits
  import opened Staleness
  import opened HealLedger
  import opened CleanupProtocol
  import opened Cooldown
  import Watching = NamespaceWatcher
  import Tracks = CrdTracking

  /** The API server: it may answer any call in any way, and the log remembers what was asked and answered. */
  class Api {
    ghost var log: seq<Call>

    constructor ()
      ensures log == []
    {
      log := [];
    }

    method Ask(gvr: Gvr, key: string, verb: Verb) returns (answer: Answer)
      modifies this
      ensures log == old(log) + [Call(gvr, key, verb, answer)]
    {
      answer := *;
      log := log + [Call(gvr, key, verb, answer)];
    }
  }

  predicate IsVM(gvr: Gvr)
  {
    gvr.resource == "virtualmachines" && gvr.group == "kubevirt.io"
  }

  lemma BumpTallies(counts: map<string, nat>, cleaned: multiset<string>, key: string)
    requires Tracks.Tallies(counts, cleaned)
    ensures Tracks.Tallies(Tracks.Bumped(counts, key), cleaned + multiset{key})
  {
  }

  lemma CountsGrow(counts: map<string, nat>, counts': map<string, nat>, log: seq<Call>, calls: seq<Call>)
    requires Tracks.Tallies(counts, Cleaned(log)) && Tracks.Tallies(counts', Cleaned(log + calls))
    ensures forall k :: Tracks.Count(counts', k) == Tracks.Count(counts, k) + Cleaned(calls)[k]
  {
    CleanedConcat(log, calls);
    forall k ensures Tracks.Count(counts', k) == Tracks.Count(counts, k) + Cleaned(calls)[k] {
      assert Tracks.Count(counts, k) == Cleaned(log)[k];
    }
  }

  // ---------- The healer's own code ----------

  /** What a pass may change. */
  datatype State = State(tracked: set<string>, heals: map<string, int>, log: seq<Call>, world: World)

  /** What may happen to the tracked keys and the counters, one after the other. */
  datatype Activity =
    | CheckType(gvr: Gvr, watched: seq<string>, cluster: Option<seq<string>>, answers: (nat, string) -> Option<seq<Resource>>)
    | CleanerTick
    | Sanitize

  /** The answers to the goroutines' Lists, if the pass gets that far. */
  function ListsOf(watched: seq<string>, cluster: Option<seq<string>>, answers: (nat, string) -> Option<seq<Resource>>): Lists
  {
    match Scope(watched, cluster)
    case None => []
    case Some(names) => seq(|names|, i requires 0 <= i < |names| => answers(i, names[i]))
  }

  predicate Usual(activity: Activity)
  {
    activity.CheckType? ==> SlashFree(activity.gvr, ListsOf(activity.watched, activity.cluster, activity.answers))
  }

  function Concat(done: seq<seq<Visit>>): seq<Visit>
  {
    if done == [] then [] else Concat(done[..|done| - 1]) + done[|done| - 1]
  }

  predicate NoneSanitizes(activities: seq<Activity>, n: nat)
    requires n <= |activities|
  {
    forall k :: 0 <= k < n ==> !activities[k].Sanitize?
  }

  datatype Verdict = CarryOn | Gone | Later(message: string) {
    function Error(): Option<string>
    {
      if Later? then Some(message) else None
    }
  }

  function VerdictOf(answer: Answer): Verdict
  {
    if CleanupProtocol.Missing(answer) then Gone else if Limited(answer) then Later(answer.message) else CarryOn
  }

  class Janitor {
    const ledger: Ledger
    const api: Api
    const clock: Clock
    const staleAge: int
    const cleanupFinalizers: bool
    /** The run of the cooldown protocol that this janitor has made. */
    ghost var trace: Trace

    constructor (ledger: Ledger, api: Api, clock: Clock, staleAge: int, cleanupFinalizers: bool)
      requires ledger.cleanupCounts == map[] && ledger.healedCRDs == map[] && api.log == []
      ensures this.ledger == ledger && this.api == api && this.clock == clock
      ensures this.staleAge == staleAge && this.cleanupFinalizers == cleanupFinalizers
      ensures Valid() && Last(trace).history == []
    {
      this.ledger, this.api, this.clock, this.staleAge, this.cleanupFinalizers := ledger, api, clock, staleAge, cleanupFinalizers;
      new;
      trace := Begin(clock.now, ledger.cooldown);
    }

    ghost predicate Valid()
      reads this, ledger, api, clock
    {
      Tallied() && InStep()
    }

    /** The counters account for every successful Delete the API ever answered. */
    ghost predicate Tallied()
      reads ledger`cleanupCounts, api
    {
      Tracks.Tallies(ledger.cleanupCounts, Cleaned(api.log))
    }

    /** The map of heals is the cache of a run of the cooldown protocol, at the present moment. */
    ghost predicate InStep()
      reads this`trace, ledger`healedCRDs, clock
    {
      && Made(trace) && Sequential(Last(trace))
      && Last(trace).cache == ledger.healedCRDs && Last(trace).cooldown == ledger.cooldown && Last(trace).now == clock.now
    }

    ghost function Now(): State
      requires trace.worlds != []
      reads this, ledger, api
    {
      State(ledger.trackedCRDs, ledger.healedCRDs, api.log, Last(trace))
    }

    /** Whether a cleanup starts by clearing finalizers. */
    predicate Forces(r: Resource)
    {
      r.finalizers != [] && (cleanupFinalizers || r.deletion.Some?)
    }

    method RecordCRDCleanup(gvr: Gvr)
      modifies ledger`cleanupCounts
      ensures ledger.cleanupCounts == Tracks.Bumped(old(ledger.cleanupCounts), Print(gvr))
      ensures var key := gvr.resource + "." + gvr.group + "/" + gvr.version;
              ledger.cleanupCounts == old(ledger.cleanupCounts)[key := 1 + if key in old(ledger.cleanupCounts) then old(ledger.cleanupCounts)[key] else 0]
    {
      var key := Print(gvr);
      var before := if key in ledger.cleanupCounts then ledger.cleanupCounts[key] else 0;
      ledger.cleanupCounts := ledger.cleanupCounts[key := before + 1];
    }

    /** The next call of an attempt that started when the log was `before`. */
    method Proceed(force: bool, gvr: Gvr, key: string, verb: Verb, ghost before: seq<Call>, ghost calls: seq<Call>)
      returns (answer: Answer, ghost calls': seq<Call>)
      requires Attempt(force, gvr, key, calls) && NextVerb(force, calls) == Some(verb)
      requires api.log == before + calls
      modifies api
      ensures calls' == calls + [Call(gvr, key, verb, answer)] && Attempt(force, gvr, key, calls')
      ensures api.log == before + calls'
    {
      answer := api.Ask(gvr, key, verb);
      AttemptGrows(force, gvr, key, calls, Call(gvr, key, verb, answer));
      calls' := calls + [Call(gvr, key, verb, answer)];
      assert before + calls' == before + calls + [Call(gvr, key, verb, answer)];
    }

    /** What an error means for the attempt: over because the resource is gone, over for now, or carry on. */
    method Weigh(answer: Answer, key: string) returns (v: Verdict)
      modifies ledger`trackedCRDs
      ensures v == VerdictOf(answer)
      ensures v.Gone? <==> answer.Error? && answer.notFound
      ensures v.Later? <==>
              && answer.Error? && !answer.notFound && Contains(answer.message, "rate")
              && (Contains(answer.message, "Wait") || Contains(answer.message, "limiter") || Contains(answer.message, "would exceed context deadline"))
      ensures ledger.trackedCRDs == old(ledger.trackedCRDs) - if answer.Error? && answer.notFound then {key} else {}
    {
      if answer.Error? {
        if answer.notFound {
          ledger.trackedCRDs := ledger.trackedCRDs - {key};
          return Gone;
        }
        if IsRateLimit(answer.message) {
          return Later(answer.message);
        }
      }
      return CarryOn;
    }

    /** The first half of doCRDCleanup: fetch the resource and clear its finalizers. */
    method ClearFinalizersFirst(gvr: Gvr, key: string) returns (v: Verdict, ghost calls: seq<Call>)
      requires Tallied()
      modifies ledger`trackedCRDs, api
      ensures api.log == old(api.log) + calls && calls != [] && Attempt(true, gvr, key, calls)
      ensures v == VerdictOf(calls[|calls| - 1].answer)
      ensures NextVerb(true, calls) == if v.CarryOn? then Some(GetBeforeDelete) else None
      ensures v.CarryOn? ==> ledger.trackedCRDs == old(ledger.trackedCRDs)
      ensures !v.CarryOn? ==> Tallied() && ledger.trackedCRDs == old(ledger.trackedCRDs) - Settled(calls)
    {
      var answer;
      answer, calls := Proceed(true, gvr, key, GetForFinalizers, api.log, []);
      if answer.Fine? {
        answer, calls := Proceed(true, gvr, key, ClearFinalizers, old(api.log), calls);
      }
      v := Weigh(answer, key);
      Amounts(true, gvr, key, old(api.log), calls);
    }

    /** doCRDCleanup: whatever the API answers, the attempt follows the protocol to its end. */
    method DoCRDCleanup(r: Resource, gvr: Gvr) returns (done: bool, err: Option<string>, ghost calls: seq<Call>)
      requires Tallied()
      modifies ledger`trackedCRDs, ledger`cleanupCounts, api
      ensures Tallied()
      ensures api.log == old(api.log) + calls && calls != []
      ensures Complete(Forces(r), gvr, KeyOf(gvr, r), calls)
      ensures done <==> !EndsLimited(calls)
      ensures err == if done then None else Some(calls[|calls| - 1].answer.message)
      ensures !done ==> IsRateLimit(err.value)
      ensures ledger.trackedCRDs == old(ledger.trackedCRDs) - Settled(calls)
      ensures calls[0].verb == if r.finalizers != [] && (cleanupFinalizers || r.deletion.Some?) then GetForFinalizers else GetBeforeDelete
      ensures forall c :: c in calls && c.verb.ClearFinalizers? ==> r.finalizers != [] && (cleanupFinalizers || r.deletion.Some?)
      ensures ledger.trackedCRDs == old(ledger.trackedCRDs)
              - if exists c :: c in calls && ((c.answer.Error? && c.answer.notFound) || (c.verb.Delete? && c.answer.Fine?)) then {KeyOf(gvr, r)} else {}
    {
      var key, force := KeyOf(gvr, r), Forces(r);
      ghost var before := api.log;
      var v := CarryOn;
      calls := [];
      assert before + [] == before;
      if force {
        v, calls := ClearFinalizersFirst(gvr, key);
      }
      if v.CarryOn? {
        v, calls := CheckExists(force, gvr, key, before, calls);
      }
      if v.CarryOn? {
        v, calls := DeleteNow(force, gvr, key, before, calls);
      }
      WhatWasAsked(r, gvr, calls);
      return !v.Later?, v.Error(), calls;
    }

    /** What an attempt may do to this resource, in its own terms. */
    lemma WhatWasAsked(r: Resource, gvr: Gvr, calls: seq<Call>)
      requires Attempt(Forces(r), gvr, KeyOf(gvr, r), calls) && calls != []
      ensures calls[0].verb == if r.finalizers != [] && (cleanupFinalizers || r.deletion.Some?) then GetForFinalizers else GetBeforeDelete
      ensures forall c :: c in calls && c.verb.ClearFinalizers? ==> r.finalizers != [] && (cleanupFinalizers || r.deletion.Some?)
      ensures Settled(calls)
              == if exists c :: c in calls && ((c.answer.Error? && c.answer.notFound) || (c.verb.Delete? && c.answer.Fine?)) then {KeyOf(gvr, r)} else {}
    {
      AttemptForces(Forces(r), gvr, KeyOf(gvr, r), calls);
      AttemptTouchesOnly(Forces(r), gvr, KeyOf(gvr, r), calls);
    }

    /** The middle of doCRDCleanup: see whether there is still something to delete. */
    method CheckExists(force: bool, gvr: Gvr, key: string, ghost before: seq<Call>, ghost calls: seq<Call>)
      returns (v: Verdict, ghost calls': seq<Call>)
      requires Attempt(force, gvr, key, calls) && NextVerb(force, calls) == Some(GetBeforeDelete)
      requires api.log == before + calls && Tracks.Tallies(ledger.cleanupCounts, Cleaned(before))
      modifies ledger`trackedCRDs, api
      ensures api.log == before + calls' && calls' != [] && Attempt(force, gvr, key, calls')
      ensures v == VerdictOf(calls'[|calls'| - 1].answer)
      ensures NextVerb(force, calls') == if v.CarryOn? then Some(Delete) else None
      ensures v.CarryOn? ==> ledger.trackedCRDs == old(ledger.trackedCRDs)
      ensures !v.CarryOn? ==> Tallied() && ledger.trackedCRDs == old(ledger.trackedCRDs) - Settled(calls')
    {
      var answer;
      answer, calls' := Proceed(force, gvr, key, GetBeforeDelete, before, calls);
      v := Weigh(answer, key);
      Amounts(force, gvr, key, before, calls');
    }

    /** The end of doCRDCleanup: delete, and on success count the cleanup and drop the key. */
    method DeleteNow(force: bool, gvr: Gvr, key: string, ghost before: seq<Call>, ghost calls: seq<Call>)
      returns (v: Verdict, ghost calls': seq<Call>)
      requires Attempt(force, gvr, key, calls) && NextVerb(force, calls) == Some(Delete)
      requires api.log == before + calls && Tracks.Tallies(ledger.cleanupCounts, Cleaned(before))
      modifies ledger`trackedCRDs, ledger`cleanupCounts, api
      ensures Tallied()
      ensures api.log == before + calls' && calls' != [] && Complete(force, gvr, key, calls')
      ensures v == VerdictOf(calls'[|calls'| - 1].answer)
      ensures ledger.trackedCRDs == old(ledger.trackedCRDs) - Settled(calls')
    {
      var answer;
      answer, calls' := Proceed(force, gvr, key, Delete, before, calls);
      v := Weigh(answer, key);
      if answer.Fine? {
        NoteDeletion(gvr, key, Cleaned(before));
      }
      DeleteEnds(force, gvr, key, before, calls, answer);
    }

    lemma DeleteEnds(force: bool, gvr: Gvr, key: string, log: seq<Call>, calls: seq<Call>, answer: Answer)
      requires Attempt(force, gvr, key, calls + [Call(gvr, key, Delete, answer)])
      ensures var calls' := calls + [Call(gvr, key, Delete, answer)];
              && calls'[|calls'| - 1].answer == answer && Complete(force, gvr, key, calls')
              && Cleaned(log + calls') == (if answer.Fine? then Cleaned(log) + multiset{Print(gvr)} else Cleaned(log))
              && Settled(calls') == if answer.Fine? || CleanupProtocol.Missing(answer) then {key} else {}
    {
      Amounts(force, gvr, key, log, calls + [Call(gvr, key, Delete, answer)]);
    }

    /** What follows a successful Delete. */
    method NoteDeletion(gvr: Gvr, key: string, ghost cleaned: multiset<string>)
      requires Tracks.Tallies(ledger.cleanupCounts, cleaned)
      modifies ledger`trackedCRDs, ledger`cleanupCounts
      ensures Tracks.Tallies(ledger.cleanupCounts, cleaned + multiset{Print(gvr)})
      ensures ledger.trackedCRDs == old(ledger.trackedCRDs) - {key}
    {
      BumpTallies(ledger.cleanupCounts, cleaned, Print(gvr));
      RecordCRDCleanup(gvr);
      ledger.trackedCRDs := ledger.trackedCRDs - {key};
    }

    lemma Amounts(force: bool, gvr: Gvr, key: string, log: seq<Call>, calls: seq<Call>)
      requires Attempt(force, gvr, key, calls) && calls != []
      ensures var last := calls[|calls| - 1];
              && Cleaned(log + calls) == (if Deletes(last) then Cleaned(log) + multiset{Print(gvr)} else Cleaned(log))
              && Settled(calls) == if Settles(last) then {key} else {}
    {
      AttemptAmountsTo(force, gvr, key, calls);
      CleanedConcat(log, calls);
    }

    /** triggerCRDCleanup: attempts until one is not rate limited, three at most. */
    method TriggerCRDCleanup(r: Resource, gvr: Gvr) returns (ghost attempts: seq<seq<Call>>)
      requires Tallied()
      modifies ledger`trackedCRDs, ledger`cleanupCounts, api
      ensures Tallied()
      ensures Session(Forces(r), gvr, KeyOf(gvr, r), attempts)
      ensures 1 <= |attempts| <= 3 && forall i :: 0 <= i < |attempts| ==> attempts[i] != []
      ensures forall i :: 0 <= i < |attempts| - 1 ==> Limited(attempts[i][|attempts[i]| - 1].answer)
      ensures Limited(LastCall(attempts).answer) ==> |attempts| == 3
      ensures api.log == old(api.log) + Flatten(attempts)
      ensures ledger.trackedCRDs == old(ledger.trackedCRDs) - Settled(Flatten(attempts))
    {
      attempts := [];
      var attempt := 0;
      ghost var before, tracked := api.log, ledger.trackedCRDs;
      while attempt < MAX_ATTEMPTS
        invariant attempt == |attempts| < MAX_ATTEMPTS
        invariant AllLimited(Forces(r), gvr, KeyOf(gvr, r), attempts)
        invariant Tried(before, tracked, attempts)
      {
        var done, err;
        done, err, attempts := TryOnce(r, gvr, before, tracked, attempts);
        if done {
          return;
        }
        if err.Some? && IsRateLimit(err.value) && attempt < MAX_ATTEMPTS - 1 {
          attempt := attempt + 1;
          continue;
        }
        return;
      }
    }

    /** What a number of attempts have done to the log, the tracked keys and the counters. */
    ghost predicate Tried(before: seq<Call>, tracked: set<string>, attempts: seq<seq<Call>>)
      reads ledger, api
    {
      && Tallied() && api.log == before + Flatten(attempts)
      && ledger.trackedCRDs == tracked - Settled(Flatten(attempts))
    }

    method TryOnce(r: Resource, gvr: Gvr, ghost before: seq<Call>, ghost tracked: set<string>, ghost attempts: seq<seq<Call>>)
      returns (done: bool, err: Option<string>, ghost attempts': seq<seq<Call>>)
      requires AllLimited(Forces(r), gvr, KeyOf(gvr, r), attempts) && |attempts| < MAX_ATTEMPTS
      requires Tried(before, tracked, attempts)
      modifies ledger`trackedCRDs, ledger`cleanupCounts, api
      ensures Tried(before, tracked, attempts') && |attempts'| == |attempts| + 1
      ensures !done ==> AllLimited(Forces(r), gvr, KeyOf(gvr, r), attempts') && err.Some? && IsRateLimit(err.value)
      ensures done || |attempts'| == MAX_ATTEMPTS ==> Session(Forces(r), gvr, KeyOf(gvr, r), attempts')
    {
      ghost var calls;
      done, err, calls := DoCRDCleanup(r, gvr);
      SessionGrows(Forces(r), gvr, KeyOf(gvr, r), attempts, calls);
      attempts' := attempts + [calls];
      OneMore(before, tracked, Flatten(attempts), calls, Flatten(attempts'));
    }

    static lemma OneMore(before: seq<Call>, tracked: set<string>, earlier: seq<Call>, calls: seq<Call>, all: seq<Call>)
      requires all == earlier + calls && Settled(all) == Settled(earlier) + Settled(calls)
      ensures before + earlier + calls == before + all
      ensures tracked - Settled(earlier) - Settled(calls) == tracked - Settled(all)
    {
    }

    /** logCRDCreation, less its warnings. */
    method LogCRDCreation(r: Resource, gvr: Gvr)
      modifies ledger`trackedCRDs
      ensures ledger.trackedCRDs == old(ledger.trackedCRDs) + {KeyOf(gvr, r)}
      ensures KeyOf(gvr, r) == gvr.resource + "/" + r.namespace + "/" + r.name
    {
      Tracks.KeyText(gvr.resource, r.namespace, r.name);
      var key := KeyOf(gvr, r);
      var alreadyTracked := key in ledger.trackedCRDs;
      if !alreadyTracked {
        ledger.trackedCRDs := ledger.trackedCRDs + {key};
      }
    }

    /** Virtual machines go by age alone, everything else by the staleness check. */
    predicate Due(r: Resource, gvr: Gvr, now: int)
    {
      if IsVM(gvr) then now - r.created > 6 * MINUTE else IsStale(r, staleAge, cleanupFinalizers, now)
    }

    /** A visit acts exactly when the resource is due and not within its cooldown, and then it is one session. */
    predicate Conducted(heals: map<string, int>, v: Visit)
    {
      && (v.Acted() <==> Due(v.resource, v.gvr, v.assessed) && !Recent(Lookup(heals, v.Key()), v.checked, ledger.cooldown))
      && (v.Acted() ==> Session(Forces(v.resource), v.gvr, v.Key(), v.attempts))
      && v.checked <= v.assessed <= v.recorded
    }

    /** The same for a number of visits, each with the heals the ones before it left. */
    predicate AllConducted(heals: map<string, int>, visits: seq<Visit>)
    {
      visits == [] ||
      (var init := visits[..|visits| - 1];
       AllConducted(heals, init) && Conducted(HealsAfter(heals, init), visits[|visits| - 1]))
    }

    /**
     What that means, whatever the flag and the resource. A virtual machine is acted on exactly when it is older
     than six minutes and past its cooldown; anything else exactly when it is over age, stuck or failing, and past
     its cooldown. Finalizers are cleared only where there are any and the flag is set or the deletion has begun:
     then, and only then, does each attempt open by fetching them.
     */
    lemma VisitMeaning(heals: map<string, int>, v: Visit)
      requires Conducted(heals, v)
      ensures v.gvr.resource == "virtualmachines" && v.gvr.group == "kubevirt.io" ==>
                (v.Acted() <==> v.assessed - v.resource.created > 360_000_000_000
                                && (v.Key() !in heals || v.checked - heals[v.Key()] >= ledger.cooldown))
      ensures !(v.gvr.resource == "virtualmachines" && v.gvr.group == "kubevirt.io") ==>
                (v.Acted() <==> (OverAge(v.resource, staleAge, v.assessed) || Stuck(v.resource, staleAge, v.assessed) || Failing(v.resource, v.assessed))
                                && (v.Key() !in heals || v.checked - heals[v.Key()] >= ledger.cooldown))
      ensures forall c :: c in Flatten(v.attempts) && c.verb.ClearFinalizers? ==>
                v.resource.finalizers != [] && (cleanupFinalizers || v.resource.deletion.Some?)
      ensures forall i :: 0 <= i < |v.attempts| ==>
                v.attempts[i] != [] && (v.attempts[i][0].verb.GetForFinalizers? <==> v.resource.finalizers != [] && (cleanupFinalizers || v.resource.deletion.Some?))
      ensures forall i :: 0 <= i < |v.attempts| ==> v.attempts[i][0].verb.GetForFinalizers? || v.attempts[i][0].verb.GetBeforeDelete?
      ensures v.Acted() ==> Flatten(v.attempts) != [] && Flatten(v.attempts)[0] == v.attempts[0][0]
    {
      StaleMeaning(v.resource, staleAge, cleanupFinalizers, v.assessed);
      SessionForces(Forces(v.resource), v.gvr, v.Key(), v.attempts);
    }

    lemma ConductedSnoc(heals: map<string, int>, visits: seq<Visit>, v: Visit)
      requires AllConducted(heals, visits) && Conducted(HealsAfter(heals, visits), v)
      ensures AllConducted(heals, visits + [v])
    {
      assert (visits + [v])[..|visits|] == visits;
    }

    /** checkAndCleanupCRDResource. */
    method CheckAndCleanupCRDResource(r: Resource, gvr: Gvr) returns (ghost v: Visit)
      requires Valid()
      modifies this`trace, ledger`trackedCRDs, ledger`cleanupCounts, ledger`healedCRDs, api, clock
      ensures Valid()
      ensures v.gvr == gvr && v.resource == r && old(clock.now) <= v.checked && old(clock.now) <= clock.now
      ensures Conducted(old(ledger.healedCRDs), v) && ledger.healedCRDs == HealedBy(old(ledger.healedCRDs), v)
      ensures v.Acted() <==>
              && !(KeyOf(gvr, r) in old(ledger.healedCRDs) && v.checked - old(ledger.healedCRDs)[KeyOf(gvr, r)] < ledger.cooldown)
              && if gvr.resource == "virtualmachines" && gvr.group == "kubevirt.io" then v.assessed - r.created > 360_000_000_000
                 else OverAge(r, staleAge, v.assessed) || Stuck(r, staleAge, v.assessed) || Failing(r, v.assessed)
      ensures ledger.healedCRDs == if v.Acted() then old(ledger.healedCRDs)[KeyOf(gvr, r) := v.recorded] else old(ledger.healedCRDs)
      ensures forall c :: c in Flatten(v.attempts) && c.verb.ClearFinalizers? ==> r.finalizers != [] && (cleanupFinalizers || r.deletion.Some?)
      ensures api.log == old(api.log) + Flatten(v.attempts)
      ensures ledger.trackedCRDs == old(ledger.trackedCRDs) - Settled(Flatten(v.attempts))
      ensures !v.Acted() ==> ledger.cleanupCounts == old(ledger.cleanupCounts)
      ensures Grown(old(Last(trace)), Last(trace), if v.Acted() then [v] else []) && SameEra(old(Last(trace)), Last(trace))
    {
      var key := KeyOf(gvr, r);
      var checked := clock.Read();
      if key in ledger.healedCRDs {
        if checked - ledger.healedCRDs[key] < ledger.cooldown {
          v := Leave(r, gvr, checked);
          return;
        }
      }
      var assessed := clock.Read();
      StaleMeaning(r, staleAge, cleanupFinalizers, assessed);
      var due := if IsVM(gvr) then assessed - r.created > 6 * MINUTE else IsStale(r, staleAge, cleanupFinalizers, assessed);
      if due {
        v := CleanNow(r, gvr, checked, assessed);
        SessionForces(Forces(r), gvr, v.Key(), v.attempts);
      } else {
        v := Leave(r, gvr, checked);
      }
    }

    /** Like InStep, but the clock may have been read since. */
    ghost predicate Behind(checked: int)
      reads this, ledger, clock
    {
      && Made(trace) && Sequential(Last(trace))
      && Last(trace).cache == ledger.healedCRDs && Last(trace).cooldown == ledger.cooldown
      && Last(trace).now <= checked <= clock.now
    }

    /** The clean-up and its record. */
    method CleanNow(r: Resource, gvr: Gvr, checked: int, assessed: int) returns (ghost v: Visit)
      requires Tallied() && Behind(checked) && checked <= assessed <= clock.now
      requires Due(r, gvr, assessed) && !Recent(Lookup(ledger.healedCRDs, KeyOf(gvr, r)), checked, ledger.cooldown)
      modifies this`trace, ledger`trackedCRDs, ledger`cleanupCounts, ledger`healedCRDs, api, clock
      ensures Valid() && v.Acted() && old(clock.now) <= clock.now
      ensures v == Visit(gvr, r, checked, assessed, v.recorded, v.attempts) && assessed <= v.recorded
      ensures Session(Forces(r), gvr, v.Key(), v.attempts)
      ensures ledger.healedCRDs == old(ledger.healedCRDs)[v.Key() := v.recorded]
      ensures api.log == old(api.log) + Flatten(v.attempts)
      ensures ledger.trackedCRDs == old(ledger.trackedCRDs) - Settled(Flatten(v.attempts))
      ensures Grown(old(Last(trace)), Last(trace), [v]) && SameEra(old(Last(trace)), Last(trace))
    {
      var key := KeyOf(gvr, r);
      ghost var attempts := TriggerCRDCleanup(r, gvr);
      var recorded := clock.Read();
      ledger.healedCRDs := ledger.healedCRDs[key := recorded];
      v := Visit(gvr, r, checked, assessed, recorded, attempts);
      trace := Healed(trace, key, checked, recorded);
    }

    /** Nothing was to be done. */
    ghost method Leave(r: Resource, gvr: Gvr, checked: int) returns (v: Visit)
      requires Tallied() && Behind(checked)
      modifies this`trace
      ensures Valid() && v == Visit(gvr, r, checked, clock.now, clock.now, [])
      ensures api.log == old(api.log) + Flatten(v.attempts) && Settled(Flatten(v.attempts)) == {}
      ensures Grown(old(Last(trace)), Last(trace), []) && SameEra(old(Last(trace)), Last(trace))
    {
      v := Visit(gvr, r, checked, clock.now, clock.now, []);
      trace := Left(trace, v.Key(), checked, clock.now);
      assert api.log == api.log + Flatten([]);
    }

    /** One item of one goroutine's list. */
    method HandleItem(r: Resource, gvr: Gvr) returns (ghost v: Visit)
      requires Valid()
      modifies this`trace, ledger`trackedCRDs, ledger`cleanupCounts, ledger`healedCRDs, api, clock
      ensures Valid() && v.gvr == gvr && v.resource == r && old(clock.now) <= v.checked
      ensures Visited(old(Now()), Now(), v)
      ensures Settled(Flatten(v.attempts)) <= {v.Key()}
      ensures ledger.trackedCRDs == old(ledger.trackedCRDs) + {v.Key()} - Settled(Flatten(v.attempts))
    {
      LogCRDCreation(r, gvr);
      v := CheckAndCleanupCRDResource(r, gvr);
      if v.Acted() {
        SessionTouchesOnly(Forces(r), gvr, v.Key(), v.attempts);
      }
    }

    /** What one visit does to the heals, the log and the history. */
    ghost predicate Visited(s: State, s': State, v: Visit)
    {
      && Conducted(s.heals, v) && s'.heals == HealedBy(s.heals, v)
      && s'.log == s.log + Flatten(v.attempts)
      && Grown(s.world, s'.world, if v.Acted() then [v] else []) && SameEra(s.world, s'.world)
      && s.world.now <= s'.world.now
    }

    /** What a number of visits do. */
    ghost predicate AllVisited(s: State, s': State, visits: seq<Visit>)
    {
      && AllConducted(s.heals, visits) && s'.heals == HealsAfter(s.heals, visits)
      && s'.log == s.log + CallsOf(visits)
      && Grown(s.world, s'.world, Sessions(visits)) && SameEra(s.world, s'.world)
      && s.world.now <= s'.world.now
    }

    lemma VisitedSnoc(s: State, s1: State, s2: State, visits: seq<Visit>, v: Visit)
      requires AllVisited(s, s1, visits) && Visited(s1, s2, v)
      ensures AllVisited(s, s2, visits + [v])
    {
      Snoc(s.heals, visits, v);
      ConductedSnoc(s.heals, visits, v);
      GrownTwice(s.world, s1.world, s2.world, Sessions(visits), if v.Acted() then [v] else []);
      CallsSnoc(s.log, visits, v);
    }

    lemma VisitedNothing(s: State)
      ensures AllVisited(s, s, [])
    {
      assert s.log + [] == s.log;
    }

    /** The goroutines of a pass: at each turn any of them with items left handles its next one. */
    method HandleLists(gvr: Gvr, lists: Lists) returns (existing: set<string>, ghost p: Pass)
      requires Valid()
      modifies this`trace, ledger`trackedCRDs, ledger`cleanupCounts, ledger`healedCRDs, api, clock
      ensures InPass(gvr, lists, old(Now()), p) && existing == p.existing
      ensures forall i :: 0 <= i < |lists| ==> p.turns.pos[i] >= |Items(lists[i])|
    {
      ghost var s := Now();
      existing := {};
      var pos: seq<nat> := seq(|lists|, _ => 0);
      p := StartPass(gvr, lists, pos);
      ghost var todo := AllItems(lists);
      NoneHandled(lists, pos);
      while SomeLeft(lists, pos)
        invariant AtTurn(gvr, lists, s, p, pos, existing, todo)
        decreases todo
      {
        pos, existing, p, todo := TakeTurn(gvr, lists, pos, existing, s, p, todo);
      }
    }

    ghost predicate AtTurn(gvr: Gvr, lists: Lists, s: State, p: Pass, pos: seq<nat>, existing: set<string>, todo: set<(nat, nat)>)
      reads this, ledger, api, clock
    {
      InPass(gvr, lists, s, p) && existing == p.existing && pos == p.turns.pos && Unhandled(lists, pos, todo)
    }

    /** Some goroutine with items left handles its next one. */
    method TakeTurn(gvr: Gvr, lists: Lists, pos: seq<nat>, existing: set<string>,
                    ghost s: State, ghost p: Pass, ghost todo: set<(nat, nat)>)
      returns (pos': seq<nat>, existing': set<string>, ghost p': Pass, ghost todo': set<(nat, nat)>)
      requires AtTurn(gvr, lists, s, p, pos, existing, todo) && SomeLeft(lists, pos)
      modifies this`trace, ledger`trackedCRDs, ledger`cleanupCounts, ledger`healedCRDs, api, clock
      ensures AtTurn(gvr, lists, s, p', pos', existing', todo') && todo' < todo
    {
      var i := PickOne(lists, pos);
      var item := (i, pos[i]);
      pos', todo' := pos[i := item.1 + 1], todo - {item};
      assert Unhandled(lists, pos', todo') && todo' < todo by {
        NextUnhandled(lists, pos, todo, i);
      }
      existing', p' := HandleNext(gvr, lists, item, existing, s, p);
    }

    static method PickOne(lists: Lists, pos: seq<nat>) returns (i: nat)
      requires |pos| == |lists| && SomeLeft(lists, pos)
      ensures i < |lists| && pos[i] < |Items(lists[i])|
    {
      i :| 0 <= i < |lists| && pos[i] < |Items(lists[i])|;
    }

    lemma StartPass(gvr: Gvr, lists: Lists, pos: seq<nat>) returns (p: Pass)
      requires Valid() && |pos| == |lists| && forall i :: 0 <= i < |pos| ==> pos[i] == 0
      ensures InPass(gvr, lists, Now(), p) && p.existing == {} && p.turns.pos == pos
    {
      p := Opening(gvr, lists, pos, ledger.trackedCRDs);
      VisitedNothing(Now());
    }

    /** How far a pass has come: its steps form a schedule, and its effects are those of its visits. */
    ghost predicate InPass(gvr: Gvr, lists: Lists, s: State, p: Pass)
      reads this, ledger, api, clock
    {
      && Valid() && InTurn(lists, p.turns, p.visits)
      && Traced(gvr, lists, s.tracked, ledger.trackedCRDs, p)
      && AllVisited(s, Now(), p.visits)
      && forall v :: v in p.visits ==> v.gvr == gvr
    }

    method HandleNext(gvr: Gvr, lists: Lists, item: (nat, nat), existing: set<string>, ghost s: State, ghost p: Pass)
      returns (existing': set<string>, ghost p': Pass)
      requires InPass(gvr, lists, s, p) && existing == p.existing
      requires InLists(lists, item) && item.1 == p.turns.pos[item.0]
      modifies this`trace, ledger`trackedCRDs, ledger`cleanupCounts, ledger`healedCRDs, api, clock
      ensures InPass(gvr, lists, s, p') && existing' == p'.existing
      ensures p'.turns.pos == p.turns.pos[item.0 := item.1 + 1]
    {
      var r := ItemAt(lists, item);
      ghost var before := Now();
      ghost var v := HandleItem(r, gvr);
      VisitedSnoc(s, before, Now(), p.visits, v);
      p' := TracedSnoc(gvr, lists, s.tracked, before.tracked, p, item, v);
      existing' := existing + {KeyOf(gvr, r)};
    }

    /** The loop after the goroutines. */
    method ForgetMissing(resource: string, existing: set<string>)
      requires Valid()
      modifies ledger`trackedCRDs
      ensures Valid() && Now() == old(Now()).(tracked := ledger.trackedCRDs)
      ensures ledger.trackedCRDs == Tracks.Swept(old(ledger.trackedCRDs), existing, resource)
      ensures forall k :: k in ledger.trackedCRDs <==>
                k in old(ledger.trackedCRDs) && (|Split(k, '/')| == 3 && Split(k, '/')[0] == resource ==> k in existing)
    {
      var rest := ledger.trackedCRDs;
      ghost var was := ledger.trackedCRDs;
      while rest != {}
        invariant rest <= was
        invariant ledger.trackedCRDs == set k | k in was && (k in rest || !Tracks.OfResource(k, resource) || k in existing)
      {
        var key :| key in rest;
        rest := rest - {key};
        var parts := Split(key, '/');
        if |parts| == 3 && parts[0] == resource {
          if key !in existing {
            ledger.trackedCRDs := ledger.trackedCRDs - {key};
          }
        }
      }
    }

    /** A whole pass over the answers to the Lists. */
    method RunPass(gvr: Gvr, lists: Lists) returns (ghost visits: seq<Visit>)
      requires Valid() && SlashFree(gvr, lists)
      modifies this`trace, ledger`trackedCRDs, ledger`cleanupCounts, ledger`healedCRDs, api, clock
      ensures Valid() && AllVisited(old(Now()), Now(), visits)
      ensures HandlesAll(lists, visits) && forall v :: v in visits ==> v.gvr == gvr
      ensures AsListed(gvr, lists, old(ledger.trackedCRDs), Settled(CallsOf(visits)), ledger.trackedCRDs)
    {
      ghost var s := Now();
      var existing;
      ghost var p;
      existing, p := HandleLists(gvr, lists);
      ghost var t := Now();
      PassIsOver(gvr, lists, s, p);
      visits := p.visits;
      ForgetMissing(gvr.resource, existing);
      OnlyTracked(s, t, Now(), visits);
    }

    /** What is known of a pass when its goroutines are done. */
    lemma PassIsOver(gvr: Gvr, lists: Lists, s: State, p: Pass)
      requires InPass(gvr, lists, s, p) && SlashFree(gvr, lists)
      requires forall i :: 0 <= i < |lists| ==> p.turns.pos[i] >= |Items(lists[i])|
      ensures Valid() && AllVisited(s, Now(), p.visits) && HandlesAll(lists, p.visits) && forall v :: v in p.visits ==> v.gvr == gvr
      ensures AsListed(gvr, lists, s.tracked, Settled(CallsOf(p.visits)), Tracks.Swept(ledger.trackedCRDs, p.existing, gvr.resource))
    {
      PassEnds(gvr, lists, s.tracked, ledger.trackedCRDs, p);
    }

    lemma OnlyTracked(s: State, t: State, t': State, visits: seq<Visit>)
      requires AllVisited(s, t, visits) && t' == t.(tracked := t'.tracked)
      ensures AllVisited(s, t', visits)
    {
    }

    /**
     checkCRDResources, with the watched list as it stands, the cluster's own namespaces, and the answer
     to each goroutine's List. Every listed resource is visited once, and what the visits do is fixed:
     which of them act, the calls, the new heals, the history, and what is tracked afterwards.
     */
    method CheckCRDResources(gvr: Gvr, watched: seq<string>, cluster: Option<seq<string>>,
                             answers: (nat, string) -> Option<seq<Resource>>)
      returns (ghost visits: seq<Visit>)
      requires Valid() && SlashFree(gvr, ListsOf(watched, cluster, answers))
      modifies this`trace, ledger`trackedCRDs, ledger`cleanupCounts, ledger`healedCRDs, api, clock
      ensures Valid() && AllVisited(old(Now()), Now(), visits)
      ensures HandlesAll(ListsOf(watched, cluster, answers), visits) && forall v :: v in visits ==> v.gvr == gvr
      ensures var names := if watched == [] || watched == [""] then cluster else Some(watched);
              if names.None? then visits == []
              else forall i, r :: 0 <= i < |names.value| && answers(i, names.value[i]).Some? && r in answers(i, names.value[i]).value ==>
                                    exists v :: v in visits && v.resource == r
      ensures forall v, c :: v in visits && c in Flatten(v.attempts) && c.verb.ClearFinalizers? ==>
                v.resource.finalizers != [] && (cleanupFinalizers || v.resource.deletion.Some?)
      ensures if Scope(watched, cluster).None? then ledger.trackedCRDs == old(ledger.trackedCRDs)
              else AsListed(gvr, ListsOf(watched, cluster, answers), old(ledger.trackedCRDs), Settled(CallsOf(visits)), ledger.trackedCRDs)
    {
      var names := watched;
      if |watched| == 0 || (|watched| == 1 && watched[0] == "") {
        if cluster.None? {
          visits := [];
          VisitedNothing(Now());
          assert Handles([], [], visits);
          return;
        }
        names := cluster.value;
      }
      var lists := seq(|names|, i requires 0 <= i < |names| => answers(i, names[i]));
      assert lists == ListsOf(watched, cluster, answers);
      visits := RunPass(gvr, lists);
      ScopeIsVisited(names, answers, visits);
      ClearsAsAllowed(old(ledger.healedCRDs), visits);
    }

    static lemma ScopeIsVisited(names: seq<string>, answers: (nat, string) -> Option<seq<Resource>>, visits: seq<Visit>)
      requires HandlesAll(seq(|names|, i requires 0 <= i < |names| => answers(i, names[i])), visits)
      ensures forall i, r :: 0 <= i < |names| && answers(i, names[i]).Some? && r in answers(i, names[i]).value ==>
                exists v :: v in visits && v.resource == r
    {
      var lists := seq(|names|, i requires 0 <= i < |names| => answers(i, names[i]));
      VisitsAreListed(lists, visits);
      forall i, r | 0 <= i < |names| && answers(i, names[i]).Some? && r in answers(i, names[i]).value
        ensures exists v :: v in visits && v.resource == r
      {
        assert lists[i] == answers(i, names[i]);
      }
    }

    lemma ClearsAsAllowed(heals: map<string, int>, visits: seq<Visit>)
      requires AllConducted(heals, visits)
      ensures forall v, c :: v in visits && c in Flatten(v.attempts) && c.verb.ClearFinalizers? ==>
                v.resource.finalizers != [] && (cleanupFinalizers || v.resource.deletion.Some?)
    {
      forall v, c | v in visits && c in Flatten(v.attempts) && c.verb.ClearFinalizers?
        ensures v.resource.finalizers != [] && (cleanupFinalizers || v.resource.deletion.Some?)
      {
        var i :| 0 <= i < |visits| && visits[i] == v;
        ConductedAt(heals, visits, i);
        VisitMeaning(HealsAfter(heals, visits[..i]), v);
      }
    }

    /**
     When no key is listed twice, a session ran on exactly the keys whose resource was due and whose
     last heal before the pass was not within the cooldown, and the map of heals has changed at these
     keys only, to the times of their records.
     */
    lemma PassActs(gvr: Gvr, lists: Lists, heals: map<string, int>, visits: seq<Visit>)
      requires AllConducted(heals, visits) && HandlesAll(lists, visits) && Tracks.ListedOnce(PassOf(gvr, lists))
      requires forall v :: v in visits ==> v.gvr == gvr
      ensures forall v :: v in visits ==>
                (v.Acted() <==> Due(v.resource, gvr, v.assessed) && !Recent(Lookup(heals, v.Key()), v.checked, ledger.cooldown))
      ensures forall v :: v in visits && v.Acted() ==> Lookup(HealsAfter(heals, visits), v.Key()) == Some(v.recorded)
      ensures forall k :: (forall v :: v in visits && v.Acted() ==> v.Key() != k) ==>
                Lookup(HealsAfter(heals, visits), k) == Lookup(heals, k)
    {
      KeysDiffer(gvr, lists, visits);
      forall v | v in visits
        ensures v.Acted() <==> Due(v.resource, gvr, v.assessed) && !Recent(Lookup(heals, v.Key()), v.checked, ledger.cooldown)
        ensures v.Acted() ==> Lookup(HealsAfter(heals, visits), v.Key()) == Some(v.recorded)
      {
        var i :| 0 <= i < |visits| && visits[i] == v;
        VisitActs(heals, visits, i);
      }
      forall k | forall v :: v in visits && v.Acted() ==> v.Key() != k
        ensures Lookup(HealsAfter(heals, visits), k) == Lookup(heals, k)
      {
        Untouched(heals, visits, k);
      }
    }

    lemma VisitActs(heals: map<string, int>, visits: seq<Visit>, i: nat)
      requires AllConducted(heals, visits) && i < |visits|
      requires forall m, n :: 0 <= m < n < |visits| ==> visits[m].Key() != visits[n].Key()
      ensures var v := visits[i];
              && (v.Acted() <==> Due(v.resource, v.gvr, v.assessed) && !Recent(Lookup(heals, v.Key()), v.checked, ledger.cooldown))
              && (v.Acted() ==> Lookup(HealsAfter(heals, visits), v.Key()) == Some(v.recorded))
    {
      ConductedAt(heals, visits, i);
      forall u | u in visits[..i] ensures u.Key() != visits[i].Key() {
        var j :| 0 <= j < i && visits[j] == u;
      }
      Untouched(heals, visits[..i], visits[i].Key());
      LastHeal(heals, visits, i);
    }

    static lemma KeysDiffer(gvr: Gvr, lists: Lists, visits: seq<Visit>)
      requires HandlesAll(lists, visits) && Tracks.ListedOnce(PassOf(gvr, lists))
      requires forall v :: v in visits ==> v.gvr == gvr
      ensures forall i, j :: 0 <= i < j < |visits| ==> visits[i].Key() != visits[j].Key()
    {
      var done :| Handles(lists, done, visits);
      forall i, j | 0 <= i < j < |visits| ensures visits[i].Key() != visits[j].Key() {
        VisitsDiffer(gvr, lists, done, visits, i, j);
      }
    }

    static lemma VisitsDiffer(gvr: Gvr, lists: Lists, done: seq<(nat, nat)>, visits: seq<Visit>, i: nat, j: nat)
      requires Handles(lists, done, visits) && Tracks.ListedOnce(PassOf(gvr, lists)) && i < j < |visits|
      requires forall v :: v in visits ==> v.gvr == gvr
      ensures visits[i].Key() != visits[j].Key()
    {
      var u, v := visits[i], visits[j];
      assert u in visits && v in visits && done[i] != done[j];
      OneKeyEach(gvr, lists, done[i], done[j]);
      assert u.Key() == KeyOf(gvr, u.resource) && v.Key() == KeyOf(gvr, v.resource);
    }

    static lemma OneKeyEach(gvr: Gvr, lists: Lists, a: (nat, nat), b: (nat, nat))
      requires Tracks.ListedOnce(PassOf(gvr, lists)) && InLists(lists, a) && InLists(lists, b) && a != b
      ensures KeyOf(gvr, ItemAt(lists, a)) != KeyOf(gvr, ItemAt(lists, b))
    {
      PassItems(gvr, lists, a);
      PassItems(gvr, lists, b);
    }

    lemma {:induction false} ConductedAt(heals: map<string, int>, visits: seq<Visit>, i: nat)
      requires AllConducted(heals, visits) && i < |visits|
      ensures Conducted(HealsAfter(heals, visits[..i]), visits[i])
      decreases |visits|
    {
      var init := visits[..|visits| - 1];
      if i < |init| {
        ConductedAt(heals, init, i);
        assert init[..i] == visits[..i];
      }
    }

    static lemma {:induction false} Untouched(heals: map<string, int>, visits: seq<Visit>, key: string)
      requires forall v :: v in visits && v.Acted() ==> v.Key() != key
      ensures Lookup(HealsAfter(heals, visits), key) == Lookup(heals, key)
    {
      if visits != [] {
        Untouched(heals, visits[..|visits| - 1], key);
      }
    }

    static lemma {:induction false} LastHeal(heals: map<string, int>, visits: seq<Visit>, i: nat)
      requires i < |visits| && forall j :: i < j < |visits| ==> visits[j].Key() != visits[i].Key()
      ensures visits[i].Acted() ==> Lookup(HealsAfter(heals, visits), visits[i].Key()) == Some(visits[i].recorded)
      decreases |visits|
    {
      if i < |visits| - 1 {
        LastHeal(heals, visits[..|visits| - 1], i);
      }
    }

    /** For every excluded namespace there is a resource in it that a pass cleans up: exclusion does not protect it. */
    lemma ExcludedIsCleaned(cfg: Watching.Config, gvr: Gvr, m: string) returns (r: Resource, lists: Lists)
      requires m in cfg.excluded
      ensures r.namespace == m && lists == [Some([r])]
      ensures forall visits: seq<Visit> :: HandlesAll(lists, visits) && AllConducted(map[], visits)
                && (forall v :: v in visits ==> v.gvr == gvr && v.assessed >= 0)
                ==> exists v :: v in visits && v.resource == r && Session(Forces(r), gvr, KeyOf(gvr, r), v.attempts)
    {
      r := Resource(m, "r", -6 * MINUTE - 1 - (if staleAge > 0 then staleAge else 0), None, [], None);
      lists := [Some([r])];
      forall visits: seq<Visit> | HandlesAll(lists, visits) && AllConducted(map[], visits)
                      && forall v :: v in visits ==> v.gvr == gvr && v.assessed >= 0
        ensures exists v :: v in visits && v.resource == r && Session(Forces(r), gvr, KeyOf(gvr, r), v.attempts)
      {
        OnlyVisit(lists, r, visits);
        ConductedAt(map[], visits, 0);
        assert visits[0] in visits && visits[..0] == [];
      }
    }

    static lemma OnlyVisit(lists: Lists, r: Resource, visits: seq<Visit>)
      requires lists == [Some([r])] && HandlesAll(lists, visits)
      ensures |visits| == 1 && visits[0].resource == r
    {
      var done :| Handles(lists, done, visits);
      OnlyItem(lists, r, done);
    }

    static lemma OnlyItem(lists: Lists, r: Resource, done: seq<(nat, nat)>)
      requires lists == [Some([r])] && Distinct(done) && forall a: (nat, nat) :: InLists(lists, a) <==> a in done
      ensures done == [(0, 0)] && ItemAt(lists, (0, 0)) == r
    {
      assert Items(lists[0]) == [r];
      assert InLists(lists, (0, 0));
      assert done[0] in done && done[|done| - 1] in done;
      assert done[0] == (0, 0) && done[|done| - 1] == (0, 0);
    }

    /** What each activity does: a pass its visits, a tick its pruning and trimming, the memory guard its forgetting. */
    ghost predicate Performed(activity: Activity, s: State, s': State, visits: seq<Visit>)
    {
      match activity
      case CheckType(gvr, watched, cluster, answers) =>
        && AllVisited(s, s', visits) && HandlesAll(ListsOf(watched, cluster, answers), visits)
        && (forall v :: v in visits ==> v.gvr == gvr)
        && if Scope(watched, cluster).None? then s'.tracked == s.tracked
           else AsListed(gvr, ListsOf(watched, cluster, answers), s.tracked, Settled(CallsOf(visits)), s'.tracked)
      case CleanerTick =>
        && visits == [] && s'.log == s.log && s'.world.history == s.world.history && SameEra(s.world, s'.world)
        && s.world.now <= s'.world.now && s'.heals == Pruned(s.heals, s'.world.now, ledger.cooldown)
        && s'.tracked <= s.tracked && |s'.tracked| == |s.tracked| - TrimCount(|s.tracked|)
      case Sanitize =>
        && visits == [] && s'.log == s.log && s'.world.history == s.world.history
        && s'.heals == map[] && s'.tracked == {}
    }

    method Act(activity: Activity) returns (ghost visits: seq<Visit>)
      requires Valid() && Usual(activity)
      modifies this, ledger, api, clock
      ensures Valid() && Performed(activity, old(Now()), Now(), visits)
      ensures activity.CleanerTick? ==>
                && ledger.healedCRDs == Pruned(old(ledger.healedCRDs), clock.now, ledger.cooldown)
                && ledger.trackedCRDs <= old(ledger.trackedCRDs) && |ledger.trackedCRDs| == |old(ledger.trackedCRDs)| - TrimCount(|old(ledger.trackedCRDs)|)
      ensures activity.Sanitize? ==> ledger.healedCRDs == map[] && ledger.trackedCRDs == {}
      ensures activity.CheckType? ==> HandlesAll(ListsOf(activity.watched, activity.cluster, activity.answers), visits)
    {
      visits := [];
      match activity
      case CheckType(gvr, watched, cluster, answers) =>
        visits := CheckCRDResources(gvr, watched, cluster, answers);
      case CleanerTick =>
        Prune();
      case Sanitize =>
        Forget();
    }

    /** The cleaner's tick, as a step of the cooldown protocol. */
    method Prune()
      requires Valid()
      modifies this`trace, ledger, clock
      ensures Valid() && Performed(Activity.CleanerTick, old(Now()), Now(), [])
      ensures ledger.healedCRDs == Pruned(old(ledger.healedCRDs), clock.now, ledger.cooldown)
      ensures ledger.trackedCRDs <= old(ledger.trackedCRDs) && |ledger.trackedCRDs| == |old(ledger.trackedCRDs)| - TrimCount(|old(ledger.trackedCRDs)|)
      ensures ledger.healedPods == Pruned(old(ledger.healedPods), clock.now, ledger.cooldown)
      ensures ledger.healedNodes == Pruned(old(ledger.healedNodes), clock.now, ledger.cooldown)
      ensures ledger.healedVMs == Pruned(old(ledger.healedVMs), clock.now, ledger.cooldown)
      ensures ledger.optimizedPods == Pruned(old(ledger.optimizedPods), clock.now, ledger.cooldown)
      ensures old(clock.now) <= clock.now && ledger.currentStrain == old(ledger.currentStrain)
      ensures ledger.cleanupCounts == old(ledger.cleanupCounts)
    {
      var now := clock.Read();
      trace := Take(trace, Tick(now - Last(trace).now));
      trace := Take(trace, Clean(now));
      ledger.CleanerTick(now);
    }

    /** Time has passed while others were at work. */
    ghost method CatchUp()
      requires Tallied() && Behind(clock.now)
      modifies this`trace
      ensures Valid() && Last(trace).history == old(Last(trace).history)
    {
      trace := Take(trace, Tick(clock.now - Last(trace).now));
    }

    /** The memory guard, as a step of the cooldown protocol. */
    method Forget()
      requires Valid()
      modifies this`trace, ledger
      ensures Valid() && Performed(Activity.Sanitize, old(Now()), Now(), [])
      ensures ledger.healedPods == map[] && ledger.healedNodes == map[] && ledger.healedVMs == map[] && ledger.optimizedPods == map[]
      ensures ledger.healedCRDs == map[] && ledger.trackedCRDs == {}
      ensures ledger.currentStrain == None && ledger.cleanupCounts == old(ledger.cleanupCounts)
    {
      trace := Take(trace, Step.Sanitize);
      ledger.SanitizeReferences();
    }

    /** The states of a run, each reached by performing the next activity with these visits. */
    ghost predicate AllPerformed(activities: seq<Activity>, n: nat, states: seq<State>, done: seq<seq<Visit>>)
      requires n <= |activities|
    {
      |done| == n && |states| == n + 1 && forall i :: 0 <= i < n ==> Performed(activities[i], states[i], states[i + 1], done[i])
    }

    /**
     Any run of passes over any types, cleaner ticks and sanitizings: every activity is performed in its
     turn, each counter grows by exactly the successful Deletes of its type, and no key sees two sessions
     within the cooldown unless the map was sanitized between the two.
     */
    method Operate(activities: seq<Activity>) returns (ghost done: seq<seq<Visit>>, ghost states: seq<State>)
      requires Valid() && forall i :: 0 <= i < |activities| ==> Usual(activities[i])
      modifies this, ledger, api, clock
      ensures Valid() && AllPerformed(activities, |activities|, states, done)
      ensures states[0] == old(Now()) && states[|activities|] == Now()
      ensures api.log == old(api.log) + CallsOf(Concat(done))
      ensures forall k :: Tracks.Count(ledger.cleanupCounts, k)
                          == Tracks.Count(old(ledger.cleanupCounts), k) + Cleaned(CallsOf(Concat(done)))[k]
      ensures Grown(old(Last(trace)), Last(trace), Sessions(Concat(done))) && HistorySpaced(Last(trace))
      ensures NoneSanitizes(activities, |activities|) ==> SessionsSpaced(Sessions(Concat(done)), ledger.cooldown)
    {
      done, states := [], [Now()];
      ghost var log, counts, w := api.log, ledger.cleanupCounts, Last(trace);
      assert log + [] == log;
      for n := 0 to |activities|
        invariant Valid() && AllPerformed(activities, n, states, done) && states[0] == old(Now()) && states[n] == Now()
      {
        ghost var visits := Act(activities[n]);
        PerformedOnceMore(activities, n, states, done, Now(), visits);
        done, states := done + [visits], states + [Now()];
      }
      RunAmountsTo(activities, |activities|, states, done);
      WhatItComesTo(log, counts, old(trace), Concat(done), NoneSanitizes(activities, |activities|));
    }

    lemma PerformedOnceMore(activities: seq<Activity>, n: nat, states: seq<State>, done: seq<seq<Visit>>, s: State, visits: seq<Visit>)
      requires n < |activities| && AllPerformed(activities, n, states, done) && Performed(activities[n], states[n], s, visits)
      ensures AllPerformed(activities, n + 1, states + [s], done + [visits])
    {
      var states', done' := states + [s], done + [visits];
      forall i | 0 <= i < n + 1 ensures Performed(activities[i], states'[i], states'[i + 1], done'[i]) {
        if i < n {
          assert states'[i] == states[i] && states'[i + 1] == states[i + 1] && done'[i] == done[i];
        }
      }
    }

    /** What a single activity adds to the log and to the history. */
    lemma PerformedAmountsTo(activity: Activity, s: State, s': State, visits: seq<Visit>)
      requires Performed(activity, s, s', visits)
      ensures s'.log == s.log + CallsOf(visits) && Grown(s.world, s'.world, Sessions(visits))
      ensures !activity.Sanitize? ==> SameEra(s.world, s'.world)
    {
      if !activity.CheckType? {
        assert s.log + [] == s.log;
      }
    }

    /** ... and what a whole run adds. */
    lemma {:induction false} RunAmountsTo(activities: seq<Activity>, n: nat, states: seq<State>, done: seq<seq<Visit>>)
      requires n <= |activities| && AllPerformed(activities, n, states, done)
      ensures var s, s' := states[0], states[n];
              && s'.log == s.log + CallsOf(Concat(done)) && Grown(s.world, s'.world, Sessions(Concat(done)))
              && (NoneSanitizes(activities, n) ==> SameEra(s.world, s'.world))
    {
      if n == 0 {
        assert states[0].log + [] == states[0].log;
      } else {
        var states0, done0 := states[..n], done[..n - 1];
        RunAmountsTo(activities, n - 1, states0, done0);
        PerformedAmountsTo(activities[n - 1], states[n - 1], states[n], done[n - 1]);
        OperatedGrows(states[0].log, states[0].world, states[n - 1], states[n], Concat(done0), done[n - 1]);
      }
    }

    lemma WhatItComesTo(log: seq<Call>, counts: map<string, nat>, t: Trace, visits: seq<Visit>, sameEra: bool)
      requires Made(t) && Valid() && api.log == log + CallsOf(visits) && Grown(Last(t), Last(trace), Sessions(visits))
      requires Tracks.Tallies(counts, Cleaned(log)) && (sameEra ==> SameEra(Last(t), Last(trace)))
      ensures forall k :: Tracks.Count(ledger.cleanupCounts, k) == Tracks.Count(counts, k) + Cleaned(CallsOf(visits))[k]
      ensures HistorySpaced(Last(trace)) && (sameEra ==> SessionsSpaced(Sessions(visits), ledger.cooldown))
    {
      CountsGrow(counts, ledger.cleanupCounts, log, CallsOf(visits));
      HistoryIsSpaced(trace);
      if sameEra {
        RunKeepsForgotten(t);
        SessionsAreSpaced(Last(t), Last(trace), Sessions(visits));
      }
    }

    lemma OperatedGrows(log: seq<Call>, w: World, s: State, s': State, visits: seq<Visit>, more: seq<Visit>)
      requires s.log == log + CallsOf(visits) && s'.log == s.log + CallsOf(more)
      requires Grown(w, s.world, Sessions(visits)) && Grown(s.world, s'.world, Sessions(more))
      ensures s'.log == log + CallsOf(visits + more) && Grown(w, s'.world, Sessions(visits + more))
      ensures SameEra(w, s.world) && SameEra(s.world, s'.world) ==> SameEra(w, s'.world)
    {
      GrownTwice(w, s.world, s'.world, Sessions(visits), Sessions(more));
      CallsConcat(visits, more);
      SessionsConcat(visits, more);
      assert log + CallsOf(visits) + CallsOf(more) == log + (CallsOf(visits) + CallsOf(more));
    }

    /** PrintCRDCleanupSummaryTo, less the formatting: the types, in ascending order, and the total. */
    method Summary() returns (keys: seq<string>, total: nat)
      requires Tallied()
      ensures Ascending(keys) && Distinct(keys) && Elements(keys) == ledger.cleanupCounts.Keys
      ensures total == |Cleaned(api.log)|
      ensures total == |set i | 0 <= i < |api.log| && api.log[i].verb.Delete? && api.log[i].answer.Fine?|
    {
      keys := [];
      var rest := ledger.cleanupCounts.Keys;
      while rest != {}
        invariant rest <= ledger.cleanupCounts.Keys
        invariant Distinct(keys) && Elements(keys) == ledger.cleanupCounts.Keys - rest
      {
        var k :| k in rest;
        rest := rest - {k};
        assert k !in Elements(keys);
        ElementsSnoc(keys, k);
        keys := keys + [k];
      }
      keys := SortStrings(keys);
      assert forall k :: k in keys <==> k in Elements(keys);
      total := SumCounts(ledger.cleanupCounts, keys);
      Tracks.TotalIsSize(ledger.cleanupCounts, Cleaned(api.log), keys);
      CleanedMeaning(api.log, "");
    }

    static method SumCounts(counts: map<string, nat>, keys: seq<string>) returns (total: nat)
      requires forall k :: k in keys ==> k in counts
      ensures total == Tracks.Total(counts, keys)
    {
      total := 0;
      for i := 0 to |keys|
        invariant total + Tracks.Total(counts, keys[i..]) == Tracks.Total(counts, keys)
      {
        assert keys[i..][1..] == keys[i + 1..];
        total := total + counts[keys[i]];
      }
    }
  }
}
