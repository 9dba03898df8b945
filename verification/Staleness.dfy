/**
 When a custom resource counts as stale, and the reason reported for it. Time is in nanoseconds.
 */
module Staleness {
  import opened Text

  const MINUTE: int := 60_000_000_000

  datatype Stamp = Missing | Unparsable | At(time: int)

  /** An entry of `status.conditions`; a field is `None` when absent or of another type. */
  datatype Condition = NotAMap | Fields(kind: Option<string>, status: Option<string>, lastTransition: Stamp)

  datatype Status = Status(conditions: Option<seq<Condition>>, phase: Option<string>, printable: Option<string>)

  datatype Resource = Resource(namespace: string, name: string, created: int, deletion: Option<int>,
                               finalizers: seq<string>, status: Option<Status>)

  const ERROR_TYPES: seq<string> := ["Error", "Failed", "Failure", "Degraded"]
  const FAILED_PHASES: seq<string> := ["Failed", "Error", "Terminated", "Terminating"]
  const ERROR_STATUSES: seq<string> := ["Error", "ErrorUnschedulable", "ErrorPvcNotFound", "ErrorDataVolumeNotFound"]

  /** The inner loop: the first error type found in the condition's kind decides, if its time stamp qualifies. */
  predicate ScanTypes(types: seq<string>, kind: string, status: string, last: Stamp, now: int)
  {
    if types == [] then false
    else if Contains(kind, types[0]) && status == "True" then
      if last.At? && now - last.time > 5 * MINUTE then true
      else ScanTypes(types[1..], kind, status, last, now)
    else ScanTypes(types[1..], kind, status, last, now)
  }

  /** The outer loop. */
  predicate ScanConditions(conditions: seq<Condition>, now: int)
  {
    if conditions == [] then false
    else
      var c := conditions[0];
      if c.Fields? && c.kind.Some? && c.status.Some? && ScanTypes(ERROR_TYPES, c.kind.value, c.status.value, c.lastTransition, now)
      then true
      else ScanConditions(conditions[1..], now)
  }

  predicate HasErrorConditions(r: Resource, now: int)
  {
    if r.status.None? || r.status.value.conditions.None? then false
    else ScanConditions(r.status.value.conditions.value, now)
  }

  predicate HasFailedPhase(r: Resource)
  {
    if r.status.None? then false
    else
      var s := r.status.value;
      if s.phase.Some? && s.phase.value in FAILED_PHASES then true
      else s.printable.Some? && s.printable.value in ERROR_STATUSES
  }

  /** IsCRDResourceStale; its `checkFinalizers` argument is never read. */
  predicate IsStale(r: Resource, staleAge: int, checkFinalizers: bool, now: int)
  {
    if r.created + staleAge < now then true
    else if r.deletion.Some? && now - r.deletion.value > staleAge then true
    else if HasErrorConditions(r, now) then true
    else HasFailedPhase(r)
  }

  datatype Reason =
    | OlderThanAge
    | StuckTerminating
    | HasFinalizers
    | ErrorConditions
    | FailedPhase(phase: string)
    | ErrorStatus(printable: string)
    | FailedState
    | Unspecified

  /** GetCRDResourceStaleReason. */
  function ReasonOf(r: Resource, staleAge: int, checkFinalizers: bool, now: int): Reason
  {
    if r.created + staleAge < now then OlderThanAge
    else if r.deletion.Some? && now - r.deletion.value > staleAge then StuckTerminating
    else if checkFinalizers && r.finalizers != [] then HasFinalizers
    else if HasErrorConditions(r, now) then ErrorConditions
    else if HasFailedPhase(r) then
      if r.status.Some? && r.status.value.phase.Some? then FailedPhase(r.status.value.phase.value)
      else if r.status.Some? && r.status.value.printable.Some? then ErrorStatus(r.status.value.printable.value)
      else FailedState
    else Unspecified
  }

  // ---------- What the scans mean ----------

  /** A condition of an error type that has been true for more than five minutes. */
  predicate LastingError(c: Condition, now: int)
  {
    && c.Fields? && c.kind.Some? && c.status == Some("True")
    && (exists t :: t in ERROR_TYPES && Contains(c.kind.value, t))
    && c.lastTransition.At? && now - c.lastTransition.time > 5 * MINUTE
  }

  lemma LastingErrorMeaning(c: Condition, now: int)
    ensures LastingError(c, now) <==>
            && c.Fields? && c.kind.Some? && c.status == Some("True")
            && (Contains(c.kind.value, "Error") || Contains(c.kind.value, "Failed") || Contains(c.kind.value, "Failure") || Contains(c.kind.value, "Degraded"))
            && c.lastTransition.At? && now - c.lastTransition.time > 300_000_000_000
  {
    assert ERROR_TYPES[0] == "Error" && ERROR_TYPES[1] == "Failed" && ERROR_TYPES[2] == "Failure" && ERROR_TYPES[3] == "Degraded";
  }

  lemma {:induction false} ScanTypesMeaning(types: seq<string>, kind: string, status: string, last: Stamp, now: int)
    ensures ScanTypes(types, kind, status, last, now) <==>
            status == "True" && last.At? && now - last.time > 5 * MINUTE && exists t :: t in types && Contains(kind, t)
  {
    if types != [] {
      ScanTypesMeaning(types[1..], kind, status, last, now);
      assert types == [types[0]] + types[1..];
    }
  }

  lemma {:induction false} ScanConditionsMeaning(conditions: seq<Condition>, now: int)
    ensures ScanConditions(conditions, now) <==> exists c :: c in conditions && LastingError(c, now)
  {
    if conditions != [] {
      var c, rest := conditions[0], conditions[1..];
      assert conditions == [c] + rest;
      HeadMeaning(c, now);
      ScanConditionsMeaning(rest, now);
      if e :| e in rest && LastingError(e, now) {
        assert e in conditions;
      }
      assert c in conditions;
      if e :| e in conditions && LastingError(e, now) {
        assert e == c || e in rest;
      }
    }
  }

  lemma HeadMeaning(c: Condition, now: int)
    ensures LastingError(c, now) <==> c.Fields? && c.kind.Some? && c.status.Some?
                                      && ScanTypes(ERROR_TYPES, c.kind.value, c.status.value, c.lastTransition, now)
  {
    if c.Fields? && c.kind.Some? && c.status.Some? {
      ScanTypesMeaning(ERROR_TYPES, c.kind.value, c.status.value, c.lastTransition, now);
    }
  }

  predicate OverAge(r: Resource, staleAge: int, now: int) { now - r.created > staleAge }

  predicate Stuck(r: Resource, staleAge: int, now: int) { r.deletion.Some? && now - r.deletion.value > staleAge }

  predicate Failing(r: Resource, now: int)
  {
    r.status.Some? &&
    (var s := r.status.value;
     || (s.conditions.Some? && exists c :: c in s.conditions.value && LastingError(c, now))
     || (s.phase.Some? && s.phase.value in FAILED_PHASES)
     || (s.printable.Some? && s.printable.value in ERROR_STATUSES))
  }

  /** Stale means over age, stuck while terminating, or failing; finalizers play no part. */
  lemma StaleMeaning(r: Resource, staleAge: int, checkFinalizers: bool, now: int)
    ensures IsStale(r, staleAge, checkFinalizers, now) <==>
            OverAge(r, staleAge, now) || Stuck(r, staleAge, now) || Failing(r, now)
    ensures OverAge(r, staleAge, now) <==> now - r.created > staleAge
    ensures Stuck(r, staleAge, now) <==> r.deletion.Some? && now - r.deletion.value > staleAge
    ensures Failing(r, now) <==>
            r.status.Some? &&
            (var s := r.status.value;
             || (s.conditions.Some? && exists c :: c in s.conditions.value && LastingError(c, now))
             || (s.phase.Some? && s.phase.value in {"Failed", "Error", "Terminated", "Terminating"})
             || (s.printable.Some? && s.printable.value in {"Error", "ErrorUnschedulable", "ErrorPvcNotFound", "ErrorDataVolumeNotFound"}))
  {
    if r.status.Some? && r.status.value.conditions.Some? {
      ScanConditionsMeaning(r.status.value.conditions.value, now);
    }
  }

  /** A resource that is stale stays stale as the clock advances. */
  lemma StaleIsMonotone(r: Resource, staleAge: int, checkFinalizers: bool, now: int, later: int)
    requires IsStale(r, staleAge, checkFinalizers, now) && now <= later
    ensures IsStale(r, staleAge, checkFinalizers, later)
  {
    StaleMeaning(r, staleAge, checkFinalizers, now);
    StaleMeaning(r, staleAge, checkFinalizers, later);
    if Failing(r, now) && r.status.value.conditions.Some? {
      forall c | c in r.status.value.conditions.value && LastingError(c, now) ensures LastingError(c, later) {
      }
    }
  }

  /** The reason is unspecified exactly for resources that are neither stale nor reported for their finalizers. */
  lemma UnspecifiedIff(r: Resource, staleAge: int, checkFinalizers: bool, now: int)
    ensures ReasonOf(r, staleAge, checkFinalizers, now) == Unspecified <==>
            !IsStale(r, staleAge, checkFinalizers, now) && !(checkFinalizers && r.finalizers != [])
  {
  }

  /** Each reason that is given is true, and none that comes before it in the list is. */
  lemma ReasonIsFirst(r: Resource, staleAge: int, checkFinalizers: bool, now: int)
    ensures var reason := ReasonOf(r, staleAge, checkFinalizers, now);
            && (reason.OlderThanAge? <==> now - r.created > staleAge)
            && (reason.StuckTerminating? <==> now - r.created <= staleAge && Stuck(r, staleAge, now))
            && (reason.HasFinalizers? <==> !OverAge(r, staleAge, now) && !Stuck(r, staleAge, now) && checkFinalizers && r.finalizers != [])
            && (reason.ErrorConditions? ==> r.status.Some? && r.status.value.conditions.Some?
                                            && exists c :: c in r.status.value.conditions.value && LastingError(c, now))
            && (reason.FailedPhase? ==> Failing(r, now) && r.status.value.phase == Some(reason.phase))
            && (reason.ErrorStatus? ==> Failing(r, now) && r.status.value.phase.None? && r.status.value.printable == Some(reason.printable))
  {
    if r.status.Some? && r.status.value.conditions.Some? {
      ScanConditionsMeaning(r.status.value.conditions.value, now);
    }
  }

  /** Whenever the check finds a resource stale, the reason computed then or later is a specific one. */
  lemma StaleHasReason(r: Resource, staleAge: int, checkFinalizers: bool, now: int, later: int)
    requires IsStale(r, staleAge, checkFinalizers, now) && now <= later
    ensures ReasonOf(r, staleAge, checkFinalizers, later) != Unspecified
    ensures ReasonOf(r, staleAge, checkFinalizers, later) != FailedState
  {
    StaleIsMonotone(r, staleAge, checkFinalizers, now, later);
    UnspecifiedIff(r, staleAge, checkFinalizers, later);
  }

  /**
   The phase is reported although it is not what failed exactly when only the printable status
   failed and a healthy phase is present to hide it.
   */
  lemma HealthyPhaseReportedIff(r: Resource, staleAge: int, checkFinalizers: bool, now: int)
    ensures (var reason := ReasonOf(r, staleAge, checkFinalizers, now); reason.FailedPhase? && reason.phase !in FAILED_PHASES)
            <==>
            && !OverAge(r, staleAge, now) && !Stuck(r, staleAge, now) && !(checkFinalizers && r.finalizers != [])
            && !HasErrorConditions(r, now) && r.status.Some?
            && r.status.value.phase.Some? && r.status.value.phase.value !in FAILED_PHASES
            && r.status.value.printable.Some? && r.status.value.printable.value in ERROR_STATUSES
  {
  }
}
