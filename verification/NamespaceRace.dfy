/**
 The two structures that record the watched namespaces, a list and a set behind separate locks,
 and what any interleaving of the goroutines that edit them does.
 */
module NamespaceRace {
  import opened Text

  // ---------- List surgery ----------

  /** Splicing out the first occurrence of a name. */
  function RemoveFirst(names: seq<string>, name: string): seq<string>
  {
    if names == [] then []
    else if names[0] == name then names[1..]
    else [names[0]] + RemoveFirst(names[1..], name)
  }

  lemma {:induction false} RemoveFirstMeaning(names: seq<string>, name: string, i: nat)
    ensures name !in names ==> RemoveFirst(names, name) == names
    ensures i < |names| && names[i] == name && name !in names[..i] ==> RemoveFirst(names, name) == names[..i] + names[i + 1..]
  {
    if names != [] && names[0] != name {
      var tail := names[1..];
      assert names == [names[0]] + tail;
      if i > 0 {
        RemoveFirstMeaning(tail, name, i - 1);
        if i < |names| {
          assert names[..i] == [names[0]] + tail[..i - 1];
        }
      } else {
        RemoveFirstMeaning(tail, name, 0);
      }
    } else if 0 < i < |names| {
      assert names[0] in names[..i];
    }
  }

  /** Splicing out the first occurrence of every name in `gone`. */
  function DropFirst(names: seq<string>, gone: set<string>): seq<string>
  {
    if names == [] then []
    else if names[0] in gone then DropFirst(names[1..], gone - {names[0]})
    else [names[0]] + DropFirst(names[1..], gone)
  }

  lemma {:induction false} DropNothing(names: seq<string>)
    ensures DropFirst(names, {}) == names
  {
    if names != [] {
      DropNothing(names[1..]);
    }
  }

  /** The order of the splices does not matter. */
  lemma {:induction false} DropOneMore(names: seq<string>, gone: set<string>, name: string)
    requires name !in gone
    ensures RemoveFirst(DropFirst(names, gone), name) == DropFirst(names, gone + {name})
  {
    if names == [] {
    } else if names[0] in gone {
      DropOneMore(names[1..], gone - {names[0]}, name);
      assert gone + {name} - {names[0]} == gone - {names[0]} + {name};
    } else if names[0] == name {
      assert gone + {name} - {name} == gone;
    } else {
      DropOneMore(names[1..], gone, name);
    }
  }

  /** On a list without duplicates, dropping is filtering. */
  lemma {:induction false} DropFromDistinct(names: seq<string>, gone: set<string>)
    requires Distinct(names)
    ensures Distinct(DropFirst(names, gone))
    ensures Elements(DropFirst(names, gone)) == Elements(names) - gone
  {
    if names != [] {
      var head, tail := names[0], names[1..];
      assert names == [head] + tail;
      assert head !in tail;
      if head in gone {
        DropFromDistinct(tail, gone - {head});
        assert Elements(names) == {head} + Elements(tail);
        assert head !in Elements(tail);
      } else {
        DropFromDistinct(tail, gone);
        var kept := DropFirst(tail, gone);
        assert head !in Elements(kept);
        ElementsCons(head, kept);
        ElementsCons(head, tail);
      }
    }
  }

  /** One splice forgets a name exactly when the list did not repeat it. */
  lemma {:induction false} SpliceForgetsIff(names: seq<string>, name: string)
    ensures Elements(RemoveFirst(names, name)) == Elements(names) - {name} <==> multiset(names)[name] <= 1
  {
    if names != [] {
      var head, tail := names[0], names[1..];
      assert names == [head] + tail;
      ElementsCons(head, tail);
      if head == name {
        assert name in tail <==> multiset(tail)[name] > 0;
      } else {
        SpliceForgetsIff(tail, name);
        var kept := RemoveFirst(tail, name);
        ElementsCons(head, kept);
        if Elements(kept) == Elements(tail) - {name} {
          assert Elements([head] + kept) == Elements(names) - {name};
        } else {
          KeptWithin(tail, name);
          assert name in Elements(kept);
        }
      }
    }
  }

  lemma {:induction false} KeptWithin(names: seq<string>, name: string)
    ensures Elements(names) - {name} <= Elements(RemoveFirst(names, name)) <= Elements(names)
  {
    if names != [] {
      var head, tail := names[0], names[1..];
      assert names == [head] + tail;
      ElementsCons(head, tail);
      if head != name {
        KeptWithin(tail, name);
        ElementsCons(head, RemoveFirst(tail, name));
      }
    }
  }

  // ---------- Locked steps and their interleavings ----------

  /** `Namespaces` and `WatchedNamespaces`. */
  datatype Tracking = Tracking(names: seq<string>, watched: set<string>)

  /** One critical section each. */
  datatype Op = Unwatch(name: string) | Splice(name: string) | Watch(name: string) | Append(name: string)

  function Step(s: Tracking, op: Op): Tracking
  {
    match op
    case Unwatch(n) => s.(watched := s.watched - {n})
    case Splice(n) => s.(names := RemoveFirst(s.names, n))
    case Watch(n) => s.(watched := s.watched + {n})
    case Append(n) => s.(names := s.names + [n])
  }

  function Run(s: Tracking, ops: seq<Op>): Tracking
  {
    if ops == [] then s else Step(Run(s, ops[..|ops| - 1]), ops[|ops| - 1])
  }

  /** How far each worker has come: which names went through each kind of step. */
  datatype Progress = Progress(unwatched: set<string>, spliced: set<string>, marked: set<string>, appended: seq<string>)

  function Advance(p: Progress, op: Op): Progress
  {
    match op
    case Unwatch(n) => p.(unwatched := p.unwatched + {n})
    case Splice(n) => p.(spliced := p.spliced + {n})
    case Watch(n) => p.(marked := p.marked + {n})
    case Append(n) => p.(appended := p.appended + [n])
  }

  function ProgressOf(ops: seq<Op>): Progress
  {
    if ops == [] then Progress({}, {}, {}, [])
    else Advance(ProgressOf(ops[..|ops| - 1]), ops[|ops| - 1])
  }

  /**
   What the program order allows next: a remover leaves the set before it leaves the list, each
   name has one worker, additions wait for every remover, and mark before they append.
   */
  predicate Allowed(p: Progress, op: Op, gone: set<string>, added: set<string>)
  {
    match op
    case Unwatch(n) => n in gone - p.unwatched && p.marked == {}
    case Splice(n) => n in p.unwatched - p.spliced && p.marked == {}
    case Watch(n) => n in added - p.marked && p.spliced == gone
    case Append(n) => n in p.marked && n !in p.appended
  }

  /** A schedule of removers for `gone`, then adders for `added`, stopped at any point. */
  predicate Schedule(ops: seq<Op>, gone: set<string>, added: set<string>)
  {
    ops == [] ||
    (Schedule(ops[..|ops| - 1], gone, added) &&
     Allowed(ProgressOf(ops[..|ops| - 1]), ops[|ops| - 1], gone, added))
  }

  /** A schedule in which every worker has finished. */
  predicate Finished(ops: seq<Op>, gone: set<string>, added: set<string>)
  {
    Schedule(ops, gone, added) && ProgressOf(ops).spliced == gone && Elements(ProgressOf(ops).appended) == added
  }

  lemma Extend(s: Tracking, ops: seq<Op>, op: Op, gone: set<string>, added: set<string>)
    ensures Run(s, ops + [op]) == Step(Run(s, ops), op)
    ensures ProgressOf(ops + [op]) == Advance(ProgressOf(ops), op)
    ensures Schedule(ops + [op], gone, added) <==>
            Schedule(ops, gone, added) && Allowed(ProgressOf(ops), op, gone, added)
  {
    assert (ops + [op])[..|ops|] == ops;
  }

  lemma {:induction false} ProgressShape(ops: seq<Op>, gone: set<string>, added: set<string>)
    requires Schedule(ops, gone, added)
    ensures var p := ProgressOf(ops);
            && p.spliced <= p.unwatched <= gone
            && Elements(p.appended) <= p.marked <= added
            && Distinct(p.appended)
            && (p.marked != {} ==> p.spliced == gone)
  {
    if ops != [] {
      var init := ops[..|ops| - 1];
      ProgressShape(init, gone, added);
      var op := ops[|ops| - 1];
      if op.Append? {
        ElementsSnoc(ProgressOf(init).appended, op.name);
      }
    }
  }

  /** The state after any schedule depends only on which steps have happened, never on their order. */
  lemma {:induction false} ScheduleEffect(s: Tracking, ops: seq<Op>, gone: set<string>, added: set<string>)
    requires Schedule(ops, gone, added)
    ensures var p := ProgressOf(ops);
            && Run(s, ops).names == DropFirst(s.names, p.spliced) + p.appended
            && Run(s, ops).watched == s.watched - p.unwatched + p.marked
  {
    if ops == [] {
      DropNothing(s.names);
    } else {
      var init, op := ops[..|ops| - 1], ops[|ops| - 1];
      ScheduleEffect(s, init, gone, added);
      ProgressShape(init, gone, added);
      var p := ProgressOf(init);
      match op
      case Unwatch(n) =>
      case Splice(n) =>
        NoElements(p.appended);
        DropOneMore(s.names, p.spliced, n);
        var kept := DropFirst(s.names, p.spliced);
        assert kept + p.appended == kept;
      case Watch(n) =>
        assert p.unwatched == gone;
      case Append(n) =>
    }
  }

  lemma {:induction false} SchedulePrefix(ops: seq<Op>, k: nat, gone: set<string>, added: set<string>)
    requires Schedule(ops, gone, added) && k <= |ops|
    ensures Schedule(ops[..k], gone, added)
    decreases |ops|
  {
    if k < |ops| {
      var init := ops[..|ops| - 1];
      SchedulePrefix(init, k, gone, added);
      assert init[..k] == ops[..k];
    } else {
      assert ops[..k] == ops;
    }
  }

  /** Names already in the set and not yet in the list, and the converse. */
  function Adding(p: Progress): set<string> { p.marked - Elements(p.appended) }

  function Removing(s: Tracking, p: Progress): set<string> { (p.unwatched - p.spliced) * s.watched }

  predicate Agree(s: Tracking)
  {
    Distinct(s.names) && Elements(s.names) == s.watched
  }

  /**
   At every point of every interleaving the list is free of duplicates, and list and set differ only
   by the names whose worker stands between its two critical sections.
   */
  lemma AgreementThroughout(s: Tracking, ops: seq<Op>, k: nat, gone: set<string>, added: set<string>)
    requires Agree(s) && added !! s.watched
    requires Schedule(ops, gone, added) && k <= |ops|
    ensures var now, p := Run(s, ops[..k]), ProgressOf(ops[..k]);
            && Distinct(now.names)
            && Elements(now.names) + Adding(p) == now.watched + Removing(s, p)
            && Elements(now.names) !! Adding(p)
            && now.watched !! Removing(s, p) - Adding(p)
  {
    SchedulePrefix(ops, k, gone, added);
    var done := ops[..k];
    ScheduleEffect(s, done, gone, added);
    ProgressShape(done, gone, added);
    var p := ProgressOf(done);
    DropFromDistinct(s.names, p.spliced);
    ConcatDistinct(DropFirst(s.names, p.spliced), p.appended);
  }

  /** Once every worker has finished, the outcome is the same for all schedules and the two structures agree again. */
  lemma FinishedEffect(s: Tracking, ops: seq<Op>, gone: set<string>, added: set<string>)
    requires Finished(ops, gone, added)
    ensures var end, p := Run(s, ops), ProgressOf(ops);
            && end.names == DropFirst(s.names, gone) + p.appended
            && end.watched == s.watched - gone + added
            && Distinct(p.appended) && Elements(p.appended) == added
            && (Agree(s) && added !! s.watched ==> Agree(end))
  {
    ScheduleEffect(s, ops, gone, added);
    ProgressShape(ops, gone, added);
    if Agree(s) && added !! s.watched {
      AgreementThroughout(s, ops, |ops|, gone, added);
      assert ops[..|ops|] == ops;
    }
  }
}
