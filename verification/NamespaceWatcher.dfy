/**
 Namespace discovery: one poll of the cluster forgets vanished namespaces, deletes stale ones in
 parallel goroutines and starts watching new ones.
 */
module NamespaceWatcher {
  import opened Text
  import opened Matching
  import opened NamespaceRace

  datatype Phase = Active | Terminating

  datatype Namespace = Namespace(name: string, created: int, phase: Phase, finalizers: nat)

  /** What the API server may answer to one call. */
  datatype Answer = Success | NotFound | Failed

  /** The answers one deletion goroutine would get: to Get, to Update and to Delete. */
  datatype Replies = Replies(get: Answer, update: Answer, delete: Answer)

  datatype Verb = Get | Update | Delete

  /** One call of a deletion goroutine, and the answer to it. */
  datatype ApiCall = ApiCall(name: string, verb: Verb, answer: Answer)

  datatype Config = Config(pattern: string, excluded: seq<string>, staleAge: int, cleanupFinalizers: bool)

  /** One poll's view of the world: the listing (or its failure), the clock, and the later answers. */
  datatype Round = Round(listing: Option<seq<Namespace>>, now: int, replies: string -> Replies)

  /** The API server never lists two namespaces under one name. */
  predicate UniqueNames(list: seq<Namespace>)
  {
    forall i, j :: 0 <= i < |list| && 0 <= j < |list| && list[i].name == list[j].name ==> i == j
  }

  predicate GoodRound(r: Round)
  {
    r.listing.Some? ==> UniqueNames(r.listing.value)
  }

  // ---------- What one poll is meant to do ----------

  function Wildcards(names: seq<string>): seq<string>
  {
    if names == [] then []
    else
      var last := names[|names| - 1];
      Wildcards(names[..|names| - 1]) + if '*' in last then [last] else []
  }

  /** The loop that collects them. */
  method CollectWildcards(names: seq<string>) returns (wildcards: seq<string>)
    ensures wildcards == Wildcards(names)
  {
    wildcards := [];
    for k := 0 to |names|
      invariant wildcards == Wildcards(names[..k])
    {
      assert names[..k + 1][..k] == names[..k];
      if '*' in names[k] {
        wildcards := wildcards + [names[k]];
      }
    }
    assert names[..|names|] == names;
  }

  function Patterns(cfg: Config, names: seq<string>): seq<string>
  {
    if cfg.pattern != "" then [cfg.pattern] else Wildcards(names)
  }

  /** Whether a poll started from this list is responsible for a name. */
  predicate Targets(cfg: Config, names: seq<string>, name: string)
  {
    MatchesAny(Patterns(cfg, names), Prefixes(names), name)
  }

  /**
   It is when the explicit pattern matches or, if there is none, some wildcard of the list does; or when
   the name starts with the prefix of some entry.
   */
  lemma TargetsMeaning(cfg: Config, names: seq<string>, name: string)
    ensures Targets(cfg, names, name) <==>
            || (cfg.pattern != "" && Glob(cfg.pattern, name))
            || (cfg.pattern == "" && exists w :: w in names && '*' in w && Glob(w, name))
            || (exists n :: n in names && PrefixOf(n).Some? && PrefixOf(n).value <= name)
  {
    if MatchesPattern(Patterns(cfg, names), name) {
      var p :| p in Patterns(cfg, names) && Glob(p, name);
      WildcardsListed(names, p);
    }
    if w :| w in names && '*' in w && Glob(w, name) {
      WildcardsListed(names, w);
    }
    if cfg.pattern != "" && Glob(cfg.pattern, name) {
      assert cfg.pattern in Patterns(cfg, names);
    }
    if n :| n in names && PrefixOf(n).Some? && PrefixOf(n).value <= name {
      assert PrefixOf(n).value in Prefixes(names);
    }
  }

  lemma {:induction false} WildcardsListed(names: seq<string>, w: string)
    ensures w in Wildcards(names) <==> w in names && '*' in w
  {
    if names != [] {
      var init, last := names[..|names| - 1], names[|names| - 1];
      WildcardsListed(init, w);
      assert names == init + [last];
    }
  }

  function Existing(list: seq<Namespace>): set<string>
  {
    set ns | ns in list :: ns.name
  }

  function Matched(cfg: Config, names: seq<string>, list: seq<Namespace>): set<string>
  {
    set n | n in Existing(list) && Targets(cfg, names, n)
  }

  function Vanished(cfg: Config, s: Tracking, list: seq<Namespace>): set<string>
  {
    set n | n in s.watched && n !in Existing(list) && Targets(cfg, s.names, n)
  }

  predicate IsStale(cfg: Config, names: seq<string>, now: int, ns: Namespace)
  {
    ns.name !in cfg.excluded && Targets(cfg, names, ns.name) && ns.phase.Active? && now - ns.created > cfg.staleAge
  }

  function Stale(cfg: Config, names: seq<string>, list: seq<Namespace>, now: int): set<Namespace>
  {
    set ns | ns in list && IsStale(cfg, names, now, ns)
  }

  /** The namespace turns out to be gone while its finalizers are being cleared. */
  predicate GoneEarly(cfg: Config, ns: Namespace, r: Replies)
  {
    cfg.cleanupFinalizers && ns.finalizers > 0 && (r.get.NotFound? || (r.get.Success? && r.update.NotFound?))
  }

  predicate LeavesTracking(cfg: Config, ns: Namespace, r: Replies)
  {
    GoneEarly(cfg, ns, r) || !r.delete.Failed?
  }

  /** The calls one deletion goroutine makes, in order, when it is answered like this. */
  function WorkerCalls(cfg: Config, ns: Namespace, r: Replies): seq<ApiCall>
  {
    var clearing :=
      if !(cfg.cleanupFinalizers && ns.finalizers > 0) then []
      else if r.get.Success? then [ApiCall(ns.name, Get, r.get), ApiCall(ns.name, Update, r.update)]
      else [ApiCall(ns.name, Get, r.get)];
    if GoneEarly(cfg, ns, r) then clearing else clearing + [ApiCall(ns.name, Delete, r.delete)]
  }

  /** The namespace is gone: some call found it missing, or it was deleted. */
  predicate TurnsOutGone(calls: seq<ApiCall>, name: string)
  {
    exists c :: c in calls && c.name == name && (c.answer.NotFound? || (c.verb.Delete? && c.answer.Success?))
  }

  /**
   What the calls mean, whatever the answers: Get is called exactly to clear finalizers, Update exactly
   after a successful Get, and Delete exactly when neither of the two found the namespace missing; each
   at most once and in this order. The name leaves tracking exactly when some call was answered "not
   found" or Delete succeeded.
   */
  lemma WorkerMeaning(cfg: Config, ns: Namespace, r: Replies)
    ensures var calls := WorkerCalls(cfg, ns, r);
            && (forall c :: c in calls ==> c.name == ns.name)
            && (forall c :: c in calls ==> c.answer == match c.verb case Get => r.get case Update => r.update case Delete => r.delete)
            && ((exists c :: c in calls && c.verb.Get?) <==> cfg.cleanupFinalizers && ns.finalizers > 0)
            && ((exists c :: c in calls && c.verb.Update?) <==> exists c :: c in calls && c.verb.Get? && c.answer.Success?)
            && ((exists c :: c in calls && c.verb.Delete?) <==> forall c :: c in calls && !c.verb.Delete? ==> !c.answer.NotFound?)
            && (forall i, j :: 0 <= i < j < |calls| ==> (calls[i].verb.Get? && !calls[j].verb.Get?) || (calls[i].verb.Update? && calls[j].verb.Delete?))
            && (LeavesTracking(cfg, ns, r) <==> exists c :: c in calls && (c.answer.NotFound? || (c.verb.Delete? && c.answer.Success?)))
            && (LeavesTracking(cfg, ns, r) <==> TurnsOutGone(calls, ns.name))
  {
    var calls := WorkerCalls(cfg, ns, r);
    var get, update, delete := ApiCall(ns.name, Get, r.get), ApiCall(ns.name, Update, r.update), ApiCall(ns.name, Delete, r.delete);
    if cfg.cleanupFinalizers && ns.finalizers > 0 {
      assert calls[0] == get && get in calls;
      if r.get.Success? {
        assert calls[1] == update && update in calls;
      }
    }
    if !GoneEarly(cfg, ns, r) {
      assert calls[|calls| - 1] == delete && delete in calls;
    }
  }

  /** The calls of a log that concern one name, and the names passed to Delete. */
  function CallsOn(calls: seq<ApiCall>, name: string): seq<ApiCall>
  {
    if calls == [] then []
    else
      var last := calls[|calls| - 1];
      CallsOn(calls[..|calls| - 1], name) + if last.name == name then [last] else []
  }

  function DeletesOf(calls: seq<ApiCall>): seq<string>
  {
    if calls == [] then []
    else
      var last := calls[|calls| - 1];
      DeletesOf(calls[..|calls| - 1]) + if last.verb.Delete? then [last.name] else []
  }

  lemma {:induction false} CallsConcat(a: seq<ApiCall>, b: seq<ApiCall>, name: string)
    ensures CallsOn(a + b, name) == CallsOn(a, name) + CallsOn(b, name)
    ensures DeletesOf(a + b) == DeletesOf(a) + DeletesOf(b)
  {
    if b == [] {
      assert a + b == a;
    } else {
      assert (a + b)[..|a + b| - 1] == a + b[..|b| - 1];
      CallsConcat(a, b[..|b| - 1], name);
    }
  }

  lemma {:induction false} CallsOnOther(calls: seq<ApiCall>, name: string)
    requires forall c :: c in calls ==> c.name != name
    ensures CallsOn(calls, name) == []
  {
    if calls != [] {
      CallsOnOther(calls[..|calls| - 1], name);
    }
  }

  lemma {:induction false} CallsOnSame(calls: seq<ApiCall>, name: string)
    requires forall c :: c in calls ==> c.name == name
    ensures CallsOn(calls, name) == calls
  {
    if calls != [] {
      CallsOnSame(calls[..|calls| - 1], name);
    }
  }

  lemma {:induction false} CallsOnAre(calls: seq<ApiCall>, name: string)
    ensures forall c :: c in CallsOn(calls, name) <==> c in calls && c.name == name
  {
    if calls != [] {
      CallsOnAre(calls[..|calls| - 1], name);
      assert calls == calls[..|calls| - 1] + [calls[|calls| - 1]];
    }
  }

  lemma WorkerDeletes(cfg: Config, ns: Namespace, r: Replies)
    ensures DeletesOf(WorkerCalls(cfg, ns, r)) == if GoneEarly(cfg, ns, r) then [] else [ns.name]
  {
    var delete := ApiCall(ns.name, Delete, r.delete);
    var get, update := ApiCall(ns.name, Get, r.get), ApiCall(ns.name, Update, r.update);
    assert DeletesOf([]) == [] && DeletesOf([get]) == [];
    assert [get, update][..1] == [get] && [get, delete][..1] == [get] && [get, update, delete][..2] == [get, update];
  }

  function Untracked(cfg: Config, stale: set<Namespace>, replies: string -> Replies): set<string>
  {
    set ns | ns in stale && LeavesTracking(cfg, ns, replies(ns.name)) :: ns.name
  }

  /** The namespaces on which the Delete call is made. */
  function Deleted(cfg: Config, stale: set<Namespace>, replies: string -> Replies): set<string>
  {
    set ns | ns in stale && !GoneEarly(cfg, ns, replies(ns.name)) :: ns.name
  }

  function Gone(cfg: Config, s: Tracking, r: Round): set<string>
  {
    match r.listing
    case None => {}
    case Some(list) => Vanished(cfg, s, list) + Untracked(cfg, Stale(cfg, s.names, list, r.now), r.replies)
  }

  function New(cfg: Config, s: Tracking, r: Round): set<string>
  {
    match r.listing
    case None => {}
    case Some(list) => Matched(cfg, s.names, list) - s.watched
  }

  function DeleteCalls(cfg: Config, s: Tracking, r: Round): set<string>
  {
    match r.listing
    case None => {}
    case Some(list) => Deleted(cfg, Stale(cfg, s.names, list, r.now), r.replies)
  }

  /** The exact outcome of a poll, up to the order in which new names are appended. */
  predicate PollResult(cfg: Config, s: Tracking, r: Round, s': Tracking)
  {
    var kept := DropFirst(s.names, Gone(cfg, s, r));
    && kept <= s'.names
    && Distinct(s'.names[|kept|..])
    && Elements(s'.names[|kept|..]) == New(cfg, s, r)
    && s'.watched == s.watched - Gone(cfg, s, r) + New(cfg, s, r)
  }

  lemma FinishedIsPollResult(cfg: Config, s: Tracking, r: Round, ops: seq<Op>)
    requires Finished(ops, Gone(cfg, s, r), New(cfg, s, r))
    ensures PollResult(cfg, s, r, Run(s, ops))
  {
    FinishedEffect(s, ops, Gone(cfg, s, r), New(cfg, s, r));
    var kept := DropFirst(s.names, Gone(cfg, s, r));
    assert Run(s, ops).names[|kept|..] == ProgressOf(ops).appended;
  }

  /** Each of these namespaces got exactly its worker's calls, in order, and no other name got any. */
  predicate EachServed(cfg: Config, stale: set<Namespace>, replies: string -> Replies, calls: seq<ApiCall>)
  {
    && (forall ns :: ns in stale ==> CallsOn(calls, ns.name) == WorkerCalls(cfg, ns, replies(ns.name)))
    && (forall c :: c in calls ==> exists ns :: ns in stale && ns.name == c.name)
  }

  /** Delete was called once each on exactly the namespaces not found gone before. */
  predicate EachDeletedOnce(cfg: Config, stale: set<Namespace>, replies: string -> Replies, calls: seq<ApiCall>)
  {
    Distinct(DeletesOf(calls)) && Elements(DeletesOf(calls)) == Deleted(cfg, stale, replies)
  }

  predicate RoundCalls(cfg: Config, stale: set<Namespace>, replies: string -> Replies, calls: seq<ApiCall>)
  {
    EachServed(cfg, stale, replies, calls) && EachDeletedOnce(cfg, stale, replies, calls)
  }

  predicate CallsMade(before: seq<ApiCall>, after: seq<ApiCall>, cfg: Config, stale: set<Namespace>, replies: string -> Replies)
  {
    before <= after && RoundCalls(cfg, stale, replies, after[|before|..])
  }

  function StaleIn(cfg: Config, s: Tracking, r: Round): set<Namespace>
  {
    match r.listing
    case None => {}
    case Some(list) => Stale(cfg, s.names, list, r.now)
  }

  /**
   What a poll does about each name. Without a listing nothing changes. Otherwise a listed name the poll is
   responsible for is watched afterwards, unless it was watched before and its deletion, as a stale
   namespace, took it out; an unlisted one is not; and any other name stays as it was.
   */
  lemma PollMeaning(cfg: Config, s: Tracking, r: Round, s': Tracking, n: string)
    requires GoodRound(r) && PollResult(cfg, s, r, s')
    ensures r.listing.None? ==> s' == s
    ensures r.listing.Some? ==>
              var listed := exists ns :: ns in r.listing.value && ns.name == n;
              var cleared := exists ns :: ns in r.listing.value && ns.name == n && n !in cfg.excluded && ns.phase.Active?
                                          && r.now - ns.created > cfg.staleAge && LeavesTracking(cfg, ns, r.replies(n));
              (n in s'.watched <==> if Targets(cfg, s.names, n) then listed && !(n in s.watched && cleared) else n in s.watched)
    ensures Agree(s) ==> (n in s'.names <==> n in s'.watched)
  {
    var kept := DropFirst(s.names, Gone(cfg, s, r));
    assert s'.names == kept + s'.names[|kept|..];
    if r.listing.None? {
      DropNothing(s.names);
      NoElements(s'.names[|kept|..]);
    } else {
      assert n in Existing(r.listing.value) <==> exists ns :: ns in r.listing.value && ns.name == n;
    }
    if Agree(s) {
      DropFromDistinct(s.names, Gone(cfg, s, r));
      assert n in s'.names <==> n in Elements(kept) || n in Elements(s'.names[|kept|..]);
    }
  }

  lemma StaleLeaves(cfg: Config, s: Tracking, r: Round, ns: Namespace)
    requires GoodRound(r) && ns in StaleIn(cfg, s, r) && ns.name in s.watched
    ensures ns.name in Gone(cfg, s, r) <==> LeavesTracking(cfg, ns, r.replies(ns.name))
    ensures ns.name !in New(cfg, s, r)
  {
    var list := r.listing.value;
    assert ns.name in Existing(list);
    forall other | other in list && other.name == ns.name ensures other == ns {
      var i :| 0 <= i < |list| && list[i] == ns;
      var j :| 0 <= j < |list| && list[j] == other;
    }
  }

  /**
   What the answers decide: a watched namespace that a poll worked on leaves the set exactly when some call
   about it was answered "not found" or its Delete succeeded; and the list too, if the two agreed.
   */
  lemma AnswersDecide(cfg: Config, s: Tracking, r: Round, calls: seq<ApiCall>, s': Tracking, ns: Namespace)
    requires GoodRound(r) && PollResult(cfg, s, r, s') && RoundCalls(cfg, StaleIn(cfg, s, r), r.replies, calls)
    requires ns in StaleIn(cfg, s, r) && ns.name in s.watched
    ensures ns.name !in s'.watched <==> TurnsOutGone(calls, ns.name)
    ensures Agree(s) ==> (ns.name !in s'.names <==> TurnsOutGone(calls, ns.name))
  {
    PollMeaning(cfg, s, r, s', ns.name);
    StaleLeaves(cfg, s, r, ns);
    CallsOnAre(calls, ns.name);
    WorkerMeaning(cfg, ns, r.replies(ns.name));
    assert TurnsOutGone(calls, ns.name) <==> TurnsOutGone(WorkerCalls(cfg, ns, r.replies(ns.name)), ns.name);
  }

  // ---------- The healer's own code ----------

  /** What a round of deletion goroutines started from, and the names it may edit. */
  datatype Workers = Workers(start: Tracking, calls: seq<ApiCall>, stale: set<Namespace>,
                             vanished: set<string>, gone: set<string>, added: set<string>)

  /** Where the goroutines stand: who made its calls, who owes which edit, and every edit so far. */
  datatype Board = Board(ops: seq<Op>, idle: set<Namespace>, ran: set<Namespace>, started: set<string>, called: seq<ApiCall>,
                         leaving: set<string>, between: set<string>)

  class Watcher {
    const cfg: Config
    var namespaces: seq<string>
    var watched: set<string>
    /** Every call ever made about a stale namespace, in order, with its answer. */
    ghost var calls: seq<ApiCall>

    ghost function State(): Tracking
      reads this
    {
      Tracking(namespaces, watched)
    }

    /** NewHealer: every initial namespace is marked as watched. */
    constructor (cfg: Config, names: seq<string>)
      ensures this.cfg == cfg && namespaces == names && watched == Elements(names)
      ensures calls == []
    {
      this.cfg := cfg;
      namespaces := names;
      watched := {};
      calls := [];
      new;
      for k := 0 to |names|
        invariant watched == Elements(names[..k])
        invariant namespaces == names && calls == []
      {
        assert names[..k + 1] == names[..k] + [names[k]];
        ElementsSnoc(names[..k], names[k]);
        watched := watched + {names[k]};
      }
      assert names[..|names|] == names;
    }

    /** The head of Watch: an empty list becomes "all namespaces", in the list only. */
    method Start()
      modifies this`namespaces
      ensures namespaces == if old(namespaces) == [] then [""] else old(namespaces)
    {
      if namespaces == [] {
        namespaces := [""];
      }
    }

    method SpliceOut(name: string)
      modifies this`namespaces
      ensures namespaces == RemoveFirst(old(namespaces), name)
    {
      var i := 0;
      while i < |namespaces|
        invariant i <= |namespaces| && namespaces == old(namespaces)
        invariant RemoveFirst(namespaces, name) == namespaces[..i] + RemoveFirst(namespaces[i..], name)
      {
        if namespaces[i] == name {
          namespaces := namespaces[..i] + namespaces[i + 1..];
          return;
        }
        i := i + 1;
      }
    }

    method CollectPatterns() returns (patterns: seq<string>)
      ensures patterns == Patterns(cfg, namespaces)
    {
      if cfg.pattern != "" {
        return [cfg.pattern];
      }
      patterns := CollectWildcards(namespaces);
    }

    static method IsTarget(patterns: seq<string>, prefixes: set<string>, name: string) returns (hit: bool)
      ensures hit == MatchesAny(patterns, prefixes, name)
    {
      hit := SomePatternMatches(patterns, name);
      if !hit {
        hit := SomePrefixMatches(prefixes, name);
      }
    }

    static method MatchListing(patterns: seq<string>, prefixes: set<string>, list: seq<Namespace>)
      returns (matched: set<string>)
      ensures matched == set n | n in Existing(list) && MatchesAny(patterns, prefixes, n)
    {
      matched := {};
      for k := 0 to |list|
        invariant matched == set n | n in Existing(list[..k]) && MatchesAny(patterns, prefixes, n)
      {
        assert list[..k + 1] == list[..k] + [list[k]];
        assert Existing(list[..k + 1]) == Existing(list[..k]) + {list[k].name};
        var hit := IsTarget(patterns, prefixes, list[k].name);
        if hit {
          matched := matched + {list[k].name};
        }
      }
      assert list[..|list|] == list;
    }

    method FindVanished(patterns: seq<string>, prefixes: set<string>, existing: set<string>)
      returns (vanished: set<string>)
      ensures vanished == set n | n in watched && n !in existing && MatchesAny(patterns, prefixes, n)
    {
      vanished := {};
      var rest := watched;
      while rest != {}
        invariant rest <= watched
        invariant vanished == set n | n in watched - rest && n !in existing && MatchesAny(patterns, prefixes, n)
      {
        var n :| n in rest;
        rest := rest - {n};
        if n !in existing {
          var hit := IsTarget(patterns, prefixes, n);
          if hit {
            vanished := vanished + {n};
          }
        }
      }
    }

    method FindStale(patterns: seq<string>, prefixes: set<string>, list: seq<Namespace>, now: int)
      returns (stale: set<Namespace>)
      ensures stale == set ns | ns in list && ns.name !in cfg.excluded && MatchesAny(patterns, prefixes, ns.name)
                                && ns.phase.Active? && now - ns.created > cfg.staleAge
    {
      stale := {};
      for k := 0 to |list|
        invariant stale == set ns | ns in list[..k] && ns.name !in cfg.excluded && MatchesAny(patterns, prefixes, ns.name)
                                    && ns.phase.Active? && now - ns.created > cfg.staleAge
      {
        var ns := list[k];
        assert list[..k + 1] == list[..k] + [ns];
        if ns.name in cfg.excluded {
          continue;
        }
        var hit := IsTarget(patterns, prefixes, ns.name);
        if hit && ns.phase.Active? && now - ns.created > cfg.staleAge {
          stale := stale + {ns};
        }
      }
      assert list[..|list|] == list;
    }

    /** triggerNamespaceDeletion up to the point where it would drop the name from tracking. */
    method RequestDeletion(ns: Namespace, replies: Replies) returns (leave: bool)
      modifies this`calls
      ensures leave <==> ns.phase.Active? && LeavesTracking(cfg, ns, replies)
      ensures calls == old(calls) + if ns.phase.Terminating? then [] else WorkerCalls(cfg, ns, replies)
    {
      if ns.phase.Terminating? {
        assert calls + [] == calls;
        return false;
      }
      ghost var made: seq<ApiCall> := [];
      if cfg.cleanupFinalizers && ns.finalizers > 0 {
        made := made + [ApiCall(ns.name, Get, replies.get)];
        if replies.get.NotFound? {
          calls := calls + made;
          return true;
        }
        if replies.get.Success? {
          made := made + [ApiCall(ns.name, Update, replies.update)];
          if replies.update.NotFound? {
            calls := calls + made;
            return true;
          }
        }
      }
      calls := calls + (made + [ApiCall(ns.name, Delete, replies.delete)]);
      leave := !replies.delete.Failed?;
    }

    /** Forget vanished names one after the other, in whatever order the map yields them. */
    method ForgetVanished(vanished: set<string>, ghost gone: set<string>, ghost added: set<string>)
      returns (ghost ops: seq<Op>)
      requires vanished <= gone
      modifies this`namespaces, this`watched
      ensures Schedule(ops, gone, added) && State() == Run(old(State()), ops)
      ensures ProgressOf(ops) == Progress(vanished, vanished, {}, [])
    {
      ops := [];
      var rest := vanished;
      ghost var s := State();
      while rest != {}
        invariant rest <= vanished
        invariant Schedule(ops, gone, added) && State() == Run(s, ops)
        invariant ProgressOf(ops) == Progress(vanished - rest, vanished - rest, {}, [])
      {
        var n :| n in rest;
        rest := rest - {n};
        watched := watched - {n};
        Extend(s, ops, Unwatch(n), gone, added);
        ops := ops + [Unwatch(n)];
        SpliceOut(n);
        Extend(s, ops, Splice(n), gone, added);
        ops := ops + [Splice(n)];
        assert vanished - rest == vanished - (rest + {n}) + {n};
      }
    }

    /**
     The deletion goroutines, run under every possible schedule: at each turn any goroutine with work
     left takes its next step, be it its API calls, its edit of the set or its edit of the list.
     */
    method DeleteInParallel(stale: set<Namespace>, replies: string -> Replies,
                            ghost s: Tracking, ghost before: seq<Op>, ghost vanished: set<string>, ghost added: set<string>)
      returns (ghost ops: seq<Op>)
      requires WorkersOf(stale)
      requires vanished !! Untracked(cfg, stale, replies)
      requires Schedule(before, vanished + Untracked(cfg, stale, replies), added) && State() == Run(s, before)
      requires ProgressOf(before) == Progress(vanished, vanished, {}, [])
      modifies this`namespaces, this`watched, this`calls
      ensures var gone := vanished + Untracked(cfg, stale, replies);
              Schedule(ops, gone, added) && State() == Run(s, ops) && ProgressOf(ops) == Progress(gone, gone, {}, [])
      ensures CallsMade(old(calls), calls, cfg, stale, replies)
    {
      ghost var w := Workers(s, calls, stale, vanished, vanished + Untracked(cfg, stale, replies), added);
      ghost var b := Opening(w, before, replies);
      var idle := stale;
      var leaving: set<string>, between: set<string> := {}, {};
      while idle != {} || leaving != {} || between != {}
        invariant Books(w, b, replies)
        invariant idle == b.idle && leaving == b.leaving && between == b.between
        decreases idle, leaving, between
      {
        if
        case idle != {} =>
          var ns :| ns in idle;
          var leave;
          leave, b := StartWorker(ns, replies, w, b);
          idle := idle - {ns};
          leaving := leaving + if leave then {ns.name} else {};
        case leaving != {} =>
          var n :| n in leaving;
          b := UnwatchWorker(n, replies, w, b);
          leaving, between := leaving - {n}, between + {n};
        case between != {} =>
          var n :| n in between;
          b := SpliceWorker(n, replies, w, b);
          between := between - {n};
      }
      ops := AllDone(w, b, replies);
    }

    /** One worker per name, none of them on a namespace that is already terminating. */
    static ghost predicate WorkersOf(stale: set<Namespace>)
    {
      && (forall ns :: ns in stale ==> ns.phase.Active?)
      && (forall a, b :: a in stale && b in stale && a.name == b.name ==> a == b)
    }

    /**
     The books stay in order: the schedule so far is one the program order allows, and what it did is
     what the goroutines that ran were told to do, less the edits still ahead of them.
     */
    ghost predicate Mid(w: Workers, b: Board, replies: string -> Replies)
    {
      Edits(w, b, replies) && RoundCalls(cfg, b.ran, replies, b.called)
    }

    ghost predicate Edits(w: Workers, b: Board, replies: string -> Replies)
    {
      && b.idle !! b.ran && b.idle + b.ran == w.stale
      && b.leaving !! b.between && b.leaving + b.between <= b.started && w.vanished !! b.started && w.vanished + b.started <= w.gone
      && Schedule(b.ops, w.gone, w.added)
      && ProgressOf(b.ops) == Progress(w.vanished + b.started - b.leaving, w.vanished + b.started - b.leaving - b.between, {}, [])
      && b.started == Untracked(cfg, b.ran, replies)
    }

    /** The books, together with the actual structures and the actual call log. */
    ghost predicate Books(w: Workers, b: Board, replies: string -> Replies)
      reads this
    {
      Mid(w, b, replies) && State() == Run(w.start, b.ops) && calls == w.calls + b.called
    }

    lemma Opening(w: Workers, before: seq<Op>, replies: string -> Replies) returns (b: Board)
      requires Schedule(before, w.gone, w.added) && w.vanished <= w.gone
      requires ProgressOf(before) == Progress(w.vanished, w.vanished, {}, [])
      ensures Mid(w, b, replies) && b.ops == before && b.idle == w.stale && b.called == [] && b.leaving == {} && b.between == {}
    {
      b := Board(before, w.stale, {}, {}, [], {}, {});
      NoElements<string>([]);
    }

    /** One goroutine makes its API calls and learns whether it has edits to make. */
    method StartWorker(ns: Namespace, replies: string -> Replies, ghost w: Workers, ghost b: Board)
      returns (leave: bool, ghost b': Board)
      requires WorkersOf(w.stale) && ns in b.idle
      requires w.vanished !! Untracked(cfg, w.stale, replies) && w.gone == w.vanished + Untracked(cfg, w.stale, replies)
      requires Books(w, b, replies)
      modifies this`calls
      ensures Books(w, b', replies) && b'.idle == b.idle - {ns} && b'.between == b.between
      ensures b'.leaving == b.leaving + if leave then {ns.name} else {}
    {
      leave := RequestDeletion(ns, replies(ns.name));
      b' := StartOnBoard(ns, replies, w, b);
    }

    /** The same on the books. */
    lemma StartOnBoard(ns: Namespace, replies: string -> Replies, w: Workers, b: Board) returns (b': Board)
      requires WorkersOf(w.stale) && ns in b.idle && Mid(w, b, replies)
      requires w.vanished !! Untracked(cfg, w.stale, replies) && w.gone == w.vanished + Untracked(cfg, w.stale, replies)
      ensures Mid(w, b', replies) && b'.ops == b.ops && b'.idle == b.idle - {ns} && b'.between == b.between
      ensures b'.leaving == b.leaving + if LeavesTracking(cfg, ns, replies(ns.name)) then {ns.name} else {}
      ensures w.calls + b'.called == w.calls + b.called + WorkerCalls(cfg, ns, replies(ns.name))
    {
      RoundGrows(w.stale, b.ran, ns, replies, b.called);
      b' := EditsStart(ns, replies, w, b);
      Reassociate(w.calls, b.called, WorkerCalls(cfg, ns, replies(ns.name)));
    }

    static lemma Reassociate(a: seq<ApiCall>, b: seq<ApiCall>, c: seq<ApiCall>)
      ensures a + b + c == a + (b + c)
    {
    }

    lemma EditsStart(ns: Namespace, replies: string -> Replies, w: Workers, b: Board) returns (b': Board)
      requires WorkersOf(w.stale) && ns in b.idle && Edits(w, b, replies)
      requires w.vanished !! Untracked(cfg, w.stale, replies) && w.gone == w.vanished + Untracked(cfg, w.stale, replies)
      ensures Edits(w, b', replies) && b'.ops == b.ops && b'.idle == b.idle - {ns} && b'.between == b.between
      ensures b'.leaving == b.leaving + if LeavesTracking(cfg, ns, replies(ns.name)) then {ns.name} else {}
      ensures b'.ran == b.ran + {ns} && b'.called == b.called + WorkerCalls(cfg, ns, replies(ns.name))
    {
      WorkerStarts(w.stale, b.ran, ns, replies);
      b' := b.(idle := b.idle - {ns}, ran := b.ran + {ns}, called := b.called + WorkerCalls(cfg, ns, replies(ns.name)));
      if LeavesTracking(cfg, ns, replies(ns.name)) {
        b' := b'.(started := b.started + {ns.name}, leaving := b.leaving + {ns.name});
        assert w.vanished + b'.started - b'.leaving == w.vanished + b.started - b.leaving;
      }
    }

    lemma RoundGrows(stale: set<Namespace>, ran: set<Namespace>, ns: Namespace, replies: string -> Replies, called: seq<ApiCall>)
      requires WorkersOf(stale) && ran <= stale && ns in stale - ran && RoundCalls(cfg, ran, replies, called)
      ensures RoundCalls(cfg, ran + {ns}, replies, called + WorkerCalls(cfg, ns, replies(ns.name)))
    {
      ServesOneMore(stale, ran, ns, replies, called);
      DeletesOneMore(stale, ran, ns, replies, called);
    }

    /** One more goroutine's calls leave those of the others as they were. */
    lemma ServesOneMore(stale: set<Namespace>, ran: set<Namespace>, ns: Namespace, replies: string -> Replies, called: seq<ApiCall>)
      requires WorkersOf(stale) && ran <= stale && ns in stale - ran && EachServed(cfg, ran, replies, called)
      ensures EachServed(cfg, ran + {ns}, replies, called + WorkerCalls(cfg, ns, replies(ns.name)))
    {
      var made := WorkerCalls(cfg, ns, replies(ns.name));
      assert forall c :: c in made ==> c.name == ns.name;
      CallsConcat(called, made, ns.name);
      CallsOnSame(made, ns.name);
      CallsOnOther(called, ns.name);
      assert [] + made == made;
      forall other | other in ran ensures CallsOn(called + made, other.name) == WorkerCalls(cfg, other, replies(other.name)) {
        ServesAsBefore(called, made, other.name);
      }
    }

    static lemma ServesAsBefore(called: seq<ApiCall>, made: seq<ApiCall>, name: string)
      requires forall c :: c in made ==> c.name != name
      ensures CallsOn(called + made, name) == CallsOn(called, name)
    {
      CallsConcat(called, made, name);
      CallsOnOther(made, name);
      assert CallsOn(called, name) + [] == CallsOn(called, name);
    }

    lemma DeletesOneMore(stale: set<Namespace>, ran: set<Namespace>, ns: Namespace, replies: string -> Replies, called: seq<ApiCall>)
      requires WorkersOf(stale) && ran <= stale && ns in stale - ran && EachDeletedOnce(cfg, ran, replies, called)
      ensures EachDeletedOnce(cfg, ran + {ns}, replies, called + WorkerCalls(cfg, ns, replies(ns.name)))
    {
      var r := replies(ns.name);
      WorkerStarts(stale, ran, ns, replies);
      WorkerDeletes(cfg, ns, r);
      CallsConcat(called, WorkerCalls(cfg, ns, r), ns.name);
      if GoneEarly(cfg, ns, r) {
        assert DeletesOf(called) + [] == DeletesOf(called);
      } else {
        assert ns.name !in Elements(DeletesOf(called));
        ElementsSnoc(DeletesOf(called), ns.name);
      }
    }

    method UnwatchWorker(n: string, replies: string -> Replies, ghost w: Workers, ghost b: Board) returns (ghost b': Board)
      requires Books(w, b, replies) && n in b.leaving
      modifies this`watched
      ensures Books(w, b', replies)
      ensures b'.idle == b.idle && b'.leaving == b.leaving - {n} && b'.between == b.between + {n}
    {
      Extend(w.start, b.ops, Unwatch(n), w.gone, w.added);
      watched := watched - {n};
      b' := b.(ops := b.ops + [Unwatch(n)], leaving := b.leaving - {n}, between := b.between + {n});
      assert w.vanished + b.started - b'.leaving == w.vanished + b.started - b.leaving + {n};
      assert w.vanished + b.started - b'.leaving - b'.between == w.vanished + b.started - b.leaving - b.between;
    }

    method SpliceWorker(n: string, replies: string -> Replies, ghost w: Workers, ghost b: Board) returns (ghost b': Board)
      requires Books(w, b, replies) && n in b.between
      modifies this`namespaces
      ensures Books(w, b', replies)
      ensures b'.idle == b.idle && b'.leaving == b.leaving && b'.between == b.between - {n}
    {
      Extend(w.start, b.ops, Splice(n), w.gone, w.added);
      SpliceOut(n);
      b' := b.(ops := b.ops + [Splice(n)], between := b.between - {n});
      assert w.vanished + b.started - b.leaving - b'.between == w.vanished + b.started - b.leaving - b.between + {n};
    }

    lemma AllDone(w: Workers, b: Board, replies: string -> Replies) returns (ops: seq<Op>)
      requires Mid(w, b, replies) && b.idle == {} && b.leaving == {} && b.between == {}
      requires w.gone == w.vanished + Untracked(cfg, w.stale, replies)
      ensures ops == b.ops && Schedule(ops, w.gone, w.added) && ProgressOf(ops) == Progress(w.gone, w.gone, {}, [])
      ensures CallsMade(w.calls, w.calls + b.called, cfg, w.stale, replies)
    {
      ops := b.ops;
      assert (w.calls + b.called)[|w.calls|..] == b.called;
    }

    /** A goroutine that has not run yet holds a name no other goroutine has touched. */
    lemma WorkerStarts(stale: set<Namespace>, ran: set<Namespace>, ns: Namespace, replies: string -> Replies)
      requires WorkersOf(stale) && ran <= stale && ns in stale - ran
      ensures ns.name !in Untracked(cfg, ran, replies) && ns.name !in Deleted(cfg, ran, replies)
      ensures Untracked(cfg, ran + {ns}, replies) == Untracked(cfg, ran, replies)
              + if LeavesTracking(cfg, ns, replies(ns.name)) then {ns.name} else {}
      ensures Deleted(cfg, ran + {ns}, replies) == Deleted(cfg, ran, replies)
              + if GoneEarly(cfg, ns, replies(ns.name)) then {} else {ns.name}
      ensures LeavesTracking(cfg, ns, replies(ns.name)) ==> ns.name in Untracked(cfg, stale, replies)
    {
    }

    /** Start watching new names one after the other, in whatever order the map yields them. */
    method WatchNew(added: set<string>, ghost s: Tracking, ghost before: seq<Op>, ghost gone: set<string>)
      returns (ghost ops: seq<Op>)
      requires Schedule(before, gone, added) && State() == Run(s, before)
      requires ProgressOf(before) == Progress(gone, gone, {}, [])
      modifies this`namespaces, this`watched
      ensures Finished(ops, gone, added) && State() == Run(s, ops)
    {
      ops := before;
      var rest := added;
      while rest != {}
        invariant rest <= added && Adding(s, ops, gone, added, added - rest)
      {
        var n :| n in rest;
        ops := WatchOne(n, added, s, ops, gone, added - rest);
        assert added - rest + {n} == added - (rest - {n});
        rest := rest - {n};
      }
    }

    /** Everything gone has been removed, and the names `done` have been added. */
    ghost predicate Adding(s: Tracking, ops: seq<Op>, gone: set<string>, added: set<string>, done: set<string>)
      reads this
    {
      && Schedule(ops, gone, added) && State() == Run(s, ops)
      && var p := ProgressOf(ops);
         p.spliced == gone && p.marked == done && Elements(p.appended) == done
    }

    method WatchOne(n: string, added: set<string>, ghost s: Tracking, ghost ops: seq<Op>, ghost gone: set<string>, ghost done: set<string>)
      returns (ghost ops': seq<Op>)
      requires Adding(s, ops, gone, added, done) && n in added - done
      modifies this`namespaces, this`watched
      ensures Adding(s, ops', gone, added, done + {n})
    {
      ghost var appended := ProgressOf(ops).appended;
      watched := watched + {n};
      Extend(s, ops, Watch(n), gone, added);
      ops' := ops + [Watch(n)];
      assert n !in Elements(appended);
      ElementsSnoc(appended, n);
      namespaces := namespaces + [n];
      Extend(s, ops', Append(n), gone, added);
      ops' := ops' + [Append(n)];
    }

    /** discoverNewNamespaces. */
    method Discover(r: Round) returns (ghost ops: seq<Op>)
      requires GoodRound(r)
      modifies this
      ensures Finished(ops, Gone(cfg, old(State()), r), New(cfg, old(State()), r))
      ensures State() == Run(old(State()), ops)
      ensures PollResult(cfg, old(State()), r, State())
      ensures CallsMade(old(calls), calls, cfg, StaleIn(cfg, old(State()), r), r.replies)
      ensures forall ns :: ns in StaleIn(cfg, old(State()), r) && ns.name in old(watched) ==>
                (ns.name !in watched <==> TurnsOutGone(calls[|old(calls)|..], ns.name))
    {
      ghost var s := State();
      ops := [];
      NoElements<string>([]);
      if r.listing.None? {
        FinishedIsPollResult(cfg, s, r, ops);
        return;
      }
      var patterns := CollectPatterns();
      var prefixes := ExtractPrefixes(namespaces);
      if patterns == [] && prefixes == {} {
        NothingToDo(s, r);
        FinishedIsPollResult(cfg, s, r, ops);
        return;
      }
      ops := Apply(r, patterns, prefixes);
      FinishedIsPollResult(cfg, s, r, ops);
      forall ns | ns in StaleIn(cfg, s, r) && ns.name in s.watched
        ensures ns.name !in watched <==> TurnsOutGone(calls[|old(calls)|..], ns.name)
      {
        AnswersDecide(cfg, s, r, calls[|old(calls)|..], State(), ns);
      }
    }

    /** Without patterns and prefixes a poll is responsible for nothing. */
    lemma NothingToDo(s: Tracking, r: Round)
      requires Patterns(cfg, s.names) == [] && Prefixes(s.names) == {}
      ensures Gone(cfg, s, r) == {} && New(cfg, s, r) == {} && StaleIn(cfg, s, r) == {}
    {
      assert forall n :: !Targets(cfg, s.names, n);
    }

    /** The rest of the poll, once the namespaces have been listed: remove the vanished, delete the stale, add the new. */
    method Apply(r: Round, patterns: seq<string>, prefixes: set<string>) returns (ghost ops: seq<Op>)
      requires GoodRound(r) && r.listing.Some?
      requires patterns == Patterns(cfg, namespaces) && prefixes == Prefixes(namespaces)
      modifies this
      ensures Finished(ops, Gone(cfg, old(State()), r), New(cfg, old(State()), r))
      ensures State() == Run(old(State()), ops)
      ensures CallsMade(old(calls), calls, cfg, StaleIn(cfg, old(State()), r), r.replies)
    {
      ghost var s := State();
      var list := r.listing.value;
      var matched := MatchListing(patterns, prefixes, list);
      assert matched == Matched(cfg, s.names, list);
      var added := matched - watched;
      var existing := set ns | ns in list :: ns.name;
      var vanished := FindVanished(patterns, prefixes, existing);
      assert vanished == Vanished(cfg, s, list);
      ghost var gone := vanished + Untracked(cfg, Stale(cfg, s.names, list, r.now), r.replies);
      var removals := ForgetVanished(vanished, gone, added);
      var stale := FindStale(patterns, prefixes, list, r.now);
      assert stale == Stale(cfg, s.names, list, r.now);
      StaleIsUnique(list, stale);
      var deletions := DeleteInParallel(stale, r.replies, s, removals, vanished, added);
      ops := WatchNew(added, s, deletions, gone);
    }

    lemma StaleIsUnique(list: seq<Namespace>, stale: set<Namespace>)
      requires UniqueNames(list) && forall ns :: ns in stale ==> ns in list
      requires forall ns :: ns in stale ==> ns.phase.Active?
      ensures Watcher.WorkersOf(stale)
    {
      forall a, b | a in stale && b in stale && a.name == b.name ensures a == b {
        var i :| 0 <= i < |list| && list[i] == a;
        var j :| 0 <= j < |list| && list[j] == b;
      }
    }
  }
}
