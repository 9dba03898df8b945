/**
 The protocol of one cleanup against an API that may answer anything: which call follows which
 answer, when an attempt ends, and what a session of up to three attempts can have done.
 */
module CleanupProtocol {
  import opened Text
  import opened CrdSpec

  datatype Verb = GetForFinalizers | ClearFinalizers | GetBeforeDelete | Delete

  /** An error is recognized as "not found" by its kind, and as rate limiting by its text. */
  datatype Answer = Fine | Error(notFound: bool, message: string)

  /** isRateLimitError. */
  predicate IsRateLimit(message: string)
  {
    Contains(message, "rate") &&
    (Contains(message, "Wait") || Contains(message, "limiter") || Contains(message, "would exceed context deadline"))
  }

  predicate Missing(a: Answer) { a.Error? && a.notFound }

  /** "Not found" is tested first. */
  predicate Limited(a: Answer) { a.Error? && !a.notFound && IsRateLimit(a.message) }

  datatype Call = Call(gvr: Gvr, key: string, verb: Verb, answer: Answer)

  /** The automaton of one attempt; `force` says that finalizers are to be cleared first. */
  function NextVerb(force: bool, calls: seq<Call>): Option<Verb>
  {
    if calls == [] then Some(if force then GetForFinalizers else GetBeforeDelete)
    else
      var last := calls[|calls| - 1];
      if Missing(last.answer) || Limited(last.answer) then None
      else match last.verb
        case GetForFinalizers => Some(if last.answer.Fine? then ClearFinalizers else GetBeforeDelete)
        case ClearFinalizers => Some(GetBeforeDelete)
        case GetBeforeDelete => Some(Delete)
        case Delete => None
  }

  /** The calls of an attempt so far: each is the one the automaton asks for, on the one resource. */
  predicate Attempt(force: bool, gvr: Gvr, key: string, calls: seq<Call>)
  {
    calls == [] ||
    (var init, last := calls[..|calls| - 1], calls[|calls| - 1];
     Attempt(force, gvr, key, init) && last.gvr == gvr && last.key == key && NextVerb(force, init) == Some(last.verb))
  }

  predicate Complete(force: bool, gvr: Gvr, key: string, calls: seq<Call>)
  {
    Attempt(force, gvr, key, calls) && NextVerb(force, calls) == None
  }

  lemma AttemptGrows(force: bool, gvr: Gvr, key: string, calls: seq<Call>, next: Call)
    requires Attempt(force, gvr, key, calls)
    requires next.gvr == gvr && next.key == key && NextVerb(force, calls) == Some(next.verb)
    ensures Attempt(force, gvr, key, calls + [next])
  {
    assert (calls + [next])[..|calls|] == calls;
  }

  predicate Deletes(c: Call) { c.verb.Delete? && c.answer.Fine? }

  /** The answers after which the key is dropped from tracking. */
  predicate Settles(c: Call) { Missing(c.answer) || Deletes(c) }

  /** How far into an attempt a verb can come. */
  function Rank(v: Verb): nat
  {
    match v case GetForFinalizers => 0 case ClearFinalizers => 1 case GetBeforeDelete => 2 case Delete => 3
  }

  /** Verbs only advance, so an attempt has at most four calls, and all but the last were let through. */
  lemma {:induction false} AttemptShape(force: bool, gvr: Gvr, key: string, calls: seq<Call>)
    requires Attempt(force, gvr, key, calls)
    ensures forall i, j :: 0 <= i < j < |calls| ==> Rank(calls[i].verb) < Rank(calls[j].verb)
    ensures |calls| > 0 ==> |calls| <= Rank(calls[|calls| - 1].verb) + 1
    ensures forall i :: 0 <= i < |calls| - 1 ==> !Settles(calls[i]) && !Limited(calls[i].answer)
  {
    if |calls| > 1 {
      var init := calls[..|calls| - 1];
      AttemptShape(force, gvr, key, init);
      assert Rank(init[|init| - 1].verb) < Rank(calls[|calls| - 1].verb);
      assert forall i :: 0 <= i < |init| ==> init[i] == calls[i];
    }
  }

  /** Finalizers are cleared only when they are to be forced, and only right after a successful Get. */
  lemma {:induction false} ClearsOnlyWhenForced(force: bool, gvr: Gvr, key: string, calls: seq<Call>, i: nat)
    requires Attempt(force, gvr, key, calls) && i < |calls| && calls[i].verb.ClearFinalizers?
    ensures force && i > 0 && calls[i - 1].verb.GetForFinalizers? && calls[i - 1].answer.Fine?
    decreases |calls|
  {
    var init := calls[..|calls| - 1];
    if i < |init| {
      ClearsOnlyWhenForced(force, gvr, key, init, i);
    } else if init != [] {
      assert init[|init| - 1] == calls[i - 1];
      StartsAsAsked(force, gvr, key, init);
    }
  }

  lemma {:induction false} StartsAsAsked(force: bool, gvr: Gvr, key: string, calls: seq<Call>)
    requires Attempt(force, gvr, key, calls)
    ensures forall i :: 0 <= i < |calls| && calls[i].verb.GetForFinalizers? ==> force && i == 0
  {
    if calls != [] {
      StartsAsAsked(force, gvr, key, calls[..|calls| - 1]);
    }
  }

  /**
   An attempt as a sequence of calls: with `force` it opens by fetching the resource to clear its finalizers,
   and clears them exactly when that succeeds; then it looks whether the resource still exists, and then
   deletes it. It goes on exactly until it has tried to delete, or was answered "not found" or rate limited.
   */
  lemma {:induction false} AttemptMeaning(force: bool, gvr: Gvr, key: string, calls: seq<Call>)
    requires Attempt(force, gvr, key, calls) && calls != []
    ensures calls[0].verb == if force then GetForFinalizers else GetBeforeDelete
    ensures forall i :: 0 <= i < |calls| - 1 ==>
              && (calls[i].verb.GetForFinalizers? ==> calls[i + 1].verb == if calls[i].answer.Fine? then ClearFinalizers else GetBeforeDelete)
              && (calls[i].verb.ClearFinalizers? ==> calls[i + 1].verb == GetBeforeDelete)
              && (calls[i].verb.GetBeforeDelete? ==> calls[i + 1].verb == Delete)
              && !calls[i].verb.Delete?
              && (calls[i].answer.Error? ==> !calls[i].answer.notFound && !IsRateLimit(calls[i].answer.message))
    ensures var last := calls[|calls| - 1];
            Complete(force, gvr, key, calls) <==>
            last.verb.Delete? || (last.answer.Error? && (last.answer.notFound || IsRateLimit(last.answer.message)))
  {
    if |calls| > 1 {
      var init := calls[..|calls| - 1];
      AttemptMeaning(force, gvr, key, init);
      assert calls[|calls| - 2] == init[|init| - 1];
      assert forall i :: 0 <= i < |init| ==> init[i] == calls[i];
    }
  }

  // ---------- A session of attempts ----------

  function Flatten(attempts: seq<seq<Call>>): seq<Call>
  {
    if attempts == [] then [] else Flatten(attempts[..|attempts| - 1]) + attempts[|attempts| - 1]
  }

  const MAX_ATTEMPTS: nat := 3

  predicate EndsLimited(calls: seq<Call>)
  {
    calls != [] && Limited(calls[|calls| - 1].answer)
  }

  /** Every attempt but the last ended in rate limiting; the last did only if attempts ran out. */
  predicate Session(force: bool, gvr: Gvr, key: string, attempts: seq<seq<Call>>)
  {
    && 1 <= |attempts| <= MAX_ATTEMPTS
    && (forall i :: 0 <= i < |attempts| ==> attempts[i] != [] && Complete(force, gvr, key, attempts[i]))
    && (forall i :: 0 <= i < |attempts| - 1 ==> EndsLimited(attempts[i]))
    && (EndsLimited(attempts[|attempts| - 1]) ==> |attempts| == MAX_ATTEMPTS)
  }

  predicate AllLimited(force: bool, gvr: Gvr, key: string, attempts: seq<seq<Call>>)
  {
    forall i :: 0 <= i < |attempts| ==> Complete(force, gvr, key, attempts[i]) && EndsLimited(attempts[i])
  }

  /** One more attempt either closes the session or leaves it open for another. */
  lemma SessionGrows(force: bool, gvr: Gvr, key: string, attempts: seq<seq<Call>>, calls: seq<Call>)
    requires AllLimited(force, gvr, key, attempts) && |attempts| < MAX_ATTEMPTS
    requires calls != [] && Complete(force, gvr, key, calls)
    ensures var more := attempts + [calls];
            && Flatten(more) == Flatten(attempts) + calls
            && Settled(Flatten(more)) == Settled(Flatten(attempts)) + Settled(calls)
            && (EndsLimited(calls) ==> AllLimited(force, gvr, key, more))
            && (!EndsLimited(calls) || |more| == MAX_ATTEMPTS ==> Session(force, gvr, key, more))
  {
    var more := attempts + [calls];
    assert more[..|attempts|] == attempts;
    SettledConcat(Flatten(attempts), calls);
  }

  lemma SettledConcat(a: seq<Call>, b: seq<Call>)
    ensures Settled(a + b) == Settled(a) + Settled(b)
  {
    assert forall c :: c in a + b <==> c in a || c in b;
  }

  function LastCall(attempts: seq<seq<Call>>): Call
    requires attempts != [] && attempts[|attempts| - 1] != []
  {
    var calls := attempts[|attempts| - 1];
    calls[|calls| - 1]
  }

  /**
   Over a whole session, whatever the answers: only the very last call can be a successful Delete or
   a "not found", so there is at most one of either; and there are at most twelve calls.
   */
  lemma SessionSettlesLast(force: bool, gvr: Gvr, key: string, attempts: seq<seq<Call>>, i: nat)
    requires Session(force, gvr, key, attempts) && i < |Flatten(attempts)|
    ensures Flatten(attempts)[|Flatten(attempts)| - 1] == LastCall(attempts)
    ensures Settles(Flatten(attempts)[i]) ==> i == |Flatten(attempts)| - 1
    ensures |Flatten(attempts)| <= 4 * MAX_ATTEMPTS
  {
    var n := |attempts|;
    var init, last := attempts[..n - 1], attempts[n - 1];
    AttemptShape(force, gvr, key, last);
    assert forall j :: 0 <= j < |init| ==> init[j] == attempts[j];
    LimitedSettleNothing(force, gvr, key, init);
    var before := Flatten(init);
    assert Flatten(attempts) == before + last;
    if i < |before| {
      assert Flatten(attempts)[i] == before[i];
    } else {
      assert Flatten(attempts)[i] == last[i - |before|];
    }
  }

  lemma {:induction false} LimitedSettleNothing(force: bool, gvr: Gvr, key: string, attempts: seq<seq<Call>>)
    requires forall i :: 0 <= i < |attempts| ==> Attempt(force, gvr, key, attempts[i]) && EndsLimited(attempts[i])
    ensures forall i :: 0 <= i < |Flatten(attempts)| ==> !Settles(Flatten(attempts)[i])
    ensures |Flatten(attempts)| <= 4 * |attempts|
  {
    if attempts != [] {
      var n := |attempts|;
      var init, last := attempts[..n - 1], attempts[n - 1];
      LimitedSettleNothing(force, gvr, key, init);
      AttemptShape(force, gvr, key, last);
    }
  }

  lemma {:induction false} AttemptTouchesOnly(force: bool, gvr: Gvr, key: string, calls: seq<Call>)
    requires Attempt(force, gvr, key, calls)
    ensures forall c :: c in calls ==> c.key == key && c.gvr == gvr
  {
    if calls != [] {
      AttemptTouchesOnly(force, gvr, key, calls[..|calls| - 1]);
    }
  }

  /** A session concerns no other resource, and settles at most that one. */
  lemma {:induction false} SessionTouchesOnly(force: bool, gvr: Gvr, key: string, attempts: seq<seq<Call>>)
    requires forall i :: 0 <= i < |attempts| ==> Attempt(force, gvr, key, attempts[i])
    ensures forall c :: c in Flatten(attempts) ==> c.key == key && c.gvr == gvr
    ensures Settled(Flatten(attempts)) <= {key}
  {
    if attempts != [] {
      SessionTouchesOnly(force, gvr, key, attempts[..|attempts| - 1]);
      AttemptTouchesOnly(force, gvr, key, attempts[|attempts| - 1]);
    }
  }

  /** In a session finalizers are cleared only by force, and each attempt opens accordingly. */
  lemma {:induction false} SessionForces(force: bool, gvr: Gvr, key: string, attempts: seq<seq<Call>>)
    requires forall i :: 0 <= i < |attempts| ==> attempts[i] != [] && Attempt(force, gvr, key, attempts[i])
    ensures forall c :: c in Flatten(attempts) && (c.verb.ClearFinalizers? || c.verb.GetForFinalizers?) ==> force
    ensures forall i :: 0 <= i < |attempts| ==> attempts[i][0].verb == if force then GetForFinalizers else GetBeforeDelete
    ensures attempts != [] ==> Flatten(attempts) != [] && Flatten(attempts)[0] == attempts[0][0]
  {
    if attempts != [] {
      var n := |attempts|;
      var init, last := attempts[..n - 1], attempts[n - 1];
      SessionForces(force, gvr, key, init);
      AttemptForces(force, gvr, key, last);
      assert forall i :: 0 <= i < n - 1 ==> init[i] == attempts[i];
    }
  }

  lemma AttemptForces(force: bool, gvr: Gvr, key: string, calls: seq<Call>)
    requires Attempt(force, gvr, key, calls) && calls != []
    ensures forall c :: c in calls && (c.verb.ClearFinalizers? || c.verb.GetForFinalizers?) ==> force
    ensures calls[0].verb == if force then GetForFinalizers else GetBeforeDelete
  {
    AttemptMeaning(force, gvr, key, calls);
    StartsAsAsked(force, gvr, key, calls);
    forall c | c in calls && c.verb.ClearFinalizers? ensures force {
      var i :| 0 <= i < |calls| && calls[i] == c;
      ClearsOnlyWhenForced(force, gvr, key, calls, i);
    }
  }

  // ---------- What a log of calls amounts to ----------

  /** The types of the successful Deletes in a log. */
  function Cleaned(log: seq<Call>): multiset<string>
  {
    if log == [] then multiset{}
    else
      var last := log[|log| - 1];
      Cleaned(log[..|log| - 1]) + if Deletes(last) then multiset{Print(last.gvr)} else multiset{}
  }

  /** The keys some call of a log settled. */
  function Settled(log: seq<Call>): set<string>
  {
    set c | c in log && Settles(c) :: c.key
  }

  lemma SettledMeaning(log: seq<Call>, k: string)
    ensures k in Settled(log) <==>
            exists c :: c in log && c.key == k && ((c.answer.Error? && c.answer.notFound) || (c.verb.Delete? && c.answer.Fine?))
  {
  }

  function DeletesAt(log: seq<Call>): set<int>
  {
    set i | 0 <= i < |log| && log[i].verb.Delete? && log[i].answer.Fine?
  }

  function DeletesOfAt(log: seq<Call>, k: string): set<int>
  {
    set i | i in DeletesAt(log) && Print(log[i].gvr) == k
  }

  lemma OneMoreDelete(log: seq<Call>, c: Call, k: string)
    ensures DeletesAt(log + [c]) == DeletesAt(log) + if Deletes(c) then {|log|} else {}
    ensures DeletesOfAt(log + [c], k) == DeletesOfAt(log, k) + if Deletes(c) && Print(c.gvr) == k then {|log|} else {}
  {
    assert forall i :: 0 <= i < |log| ==> (log + [c])[i] == log[i];
    assert (log + [c])[|log|] == c;
  }

  /** One by one: a log counts the calls that are successful Deletes, those of each type and all of them. */
  lemma {:induction false} CleanedMeaning(log: seq<Call>, k: string)
    ensures Cleaned(log)[k] == |DeletesOfAt(log, k)|
    ensures |Cleaned(log)| == |DeletesAt(log)|
  {
    if log != [] {
      var init, last := log[..|log| - 1], log[|log| - 1];
      CleanedMeaning(init, k);
      assert log == init + [last];
      OneMoreDelete(init, last, k);
      OneMoreCleaned(init, last, k);
      OneMore(DeletesAt(init), |init|, Deletes(last));
      OneMore(DeletesOfAt(init, k), |init|, Deletes(last) && Print(last.gvr) == k);
    }
  }

  lemma OneMoreCleaned(log: seq<Call>, c: Call, k: string)
    ensures Cleaned(log + [c])[k] == Cleaned(log)[k] + if Deletes(c) && Print(c.gvr) == k then 1 else 0
    ensures |Cleaned(log + [c])| == |Cleaned(log)| + if Deletes(c) then 1 else 0
  {
    CleanedStep(log, c);
  }

  lemma OneMore(at: set<int>, n: int, more: bool)
    requires n !in at
    ensures |at + if more then {n} else {}| == |at| + if more then 1 else 0
  {
  }

  lemma CleanedStep(log: seq<Call>, c: Call)
    ensures Cleaned(log + [c]) == Cleaned(log) + if Deletes(c) then multiset{Print(c.gvr)} else multiset{}
  {
    assert (log + [c])[..|log|] == log;
  }

  lemma Reassociate(a: seq<Call>, b: seq<Call>)
    requires b != []
    ensures b == b[..|b| - 1] + [b[|b| - 1]]
    ensures a + b == a + b[..|b| - 1] + [b[|b| - 1]]
  {
  }

  lemma {:induction false} CleanedConcat(a: seq<Call>, b: seq<Call>)
    ensures Cleaned(a + b) == Cleaned(a) + Cleaned(b)
  {
    if b == [] {
      assert a + b == a;
    } else {
      var init, last := b[..|b| - 1], b[|b| - 1];
      CleanedConcat(a, init);
      CleanedSplit(a, init, last);
      Reassociate(a, b);
    }
  }

  lemma CleanedSplit(a: seq<Call>, init: seq<Call>, last: Call)
    requires Cleaned(a + init) == Cleaned(a) + Cleaned(init)
    ensures Cleaned(a + init + [last]) == Cleaned(a) + Cleaned(init + [last])
  {
    CleanedStep(a + init, last);
    CleanedStep(init, last);
  }

  lemma {:induction false} CleanedNothing(log: seq<Call>)
    requires forall c :: c in log ==> !Deletes(c)
    ensures Cleaned(log) == multiset{}
  {
    if log != [] {
      CleanedNothing(log[..|log| - 1]);
    }
  }

  /** A complete attempt cleaned something, or settled its key, exactly by its last call. */
  lemma AttemptAmountsTo(force: bool, gvr: Gvr, key: string, calls: seq<Call>)
    requires Attempt(force, gvr, key, calls) && calls != []
    ensures var last := calls[|calls| - 1];
            && Cleaned(calls) == (if Deletes(last) then multiset{Print(gvr)} else multiset{})
            && Settled(calls) == (if Settles(last) then {key} else {})
  {
    var init := calls[..|calls| - 1];
    AttemptShape(force, gvr, key, calls);
    forall c | c in init ensures !Settles(c) {
      var i :| 0 <= i < |init| && init[i] == c;
      assert calls[i] == c;
    }
    CleanedNothing(init);
    SettledByLast(calls);
  }

  lemma SettledByLast(calls: seq<Call>)
    requires calls != [] && forall c :: c in calls[..|calls| - 1] ==> !Settles(c)
    ensures var last := calls[|calls| - 1];
            Settled(calls) == if Settles(last) then {last.key} else {}
  {
    var init, last := calls[..|calls| - 1], calls[|calls| - 1];
    assert calls == init + [last] && last in calls;
    forall c | c in calls && Settles(c) ensures c == last {
      assert c in init || c == last;
    }
  }
}
