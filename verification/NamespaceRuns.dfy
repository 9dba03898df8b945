/**
 Whole runs of namespace polling: what the watched set can ever reach, and that the two structures
 agree again after every poll.
 */
module NamespaceRuns {
  import opened Text
  import opened Matching
  import opened NamespaceRace
  import opened NamespaceWatcher
  import opened PatternAlgebra

  predicate CleanRound(r: Round)
  {
    GoodRound(r) && (r.listing.Some? ==> forall ns :: ns in r.listing.value ==> Clean(ns.name))
  }

  /** Successive polls, each from the state the one before it left. */
  predicate IsRun(cfg: Config, states: seq<Tracking>, rounds: seq<Round>)
  {
    && |states| == |rounds| + 1
    && (forall i :: 0 <= i < |rounds| ==> CleanRound(rounds[i]))
    && (forall i :: 0 <= i < |rounds| ==> PollResult(cfg, states[i], rounds[i], states[i + 1]))
  }

  predicate NoWildcards(names: seq<string>)
  {
    forall n :: n in names ==> '*' !in n
  }

  // ---------- Agreement ----------

  /** What NewHealer and the head of Watch leave behind. */
  function Started(names: seq<string>): Tracking
  {
    Tracking(if names == [] then [""] else names, Elements(names))
  }

  /** The two structures start out in agreement exactly when namespaces were given and none twice. */
  lemma StartAgreesIff(names: seq<string>)
    ensures Agree(Started(names)) <==> names != [] && Distinct(names)
  {
    if names == [] {
      assert "" in Elements([""]);
      NoElements(names);
    }
  }

  lemma {:induction false} AgreementOverRuns(cfg: Config, states: seq<Tracking>, rounds: seq<Round>, i: nat)
    requires IsRun(cfg, states, rounds) && Agree(states[0]) && i < |states|
    ensures Agree(states[i])
  {
    if i > 0 {
      AgreementOverRuns(cfg, states, rounds, i - 1);
      PollKeepsAgreement(cfg, states[i - 1], rounds[i - 1], states[i]);
    }
  }

  lemma PollKeepsAgreement(cfg: Config, s: Tracking, r: Round, s': Tracking)
    requires PollResult(cfg, s, r, s') && Agree(s)
    ensures Agree(s')
  {
    var kept := DropFirst(s.names, Gone(cfg, s, r));
    var tail := s'.names[|kept|..];
    DropFromDistinct(s.names, Gone(cfg, s, r));
    ConcatDistinct(kept, tail);
    assert s'.names == kept + tail;
  }

  // ---------- One poll ----------

  /** A namespace the poll is responsible for goes unwatched only if it was watched and this poll removed it. */
  lemma MissedOnlyIfRemoved(cfg: Config, s: Tracking, r: Round, s': Tracking, n: string)
    requires PollResult(cfg, s, r, s') && r.listing.Some?
    requires n in Matched(cfg, s.names, r.listing.value)
    ensures n !in s'.watched <==>
            n in s.watched && n in Untracked(cfg, Stale(cfg, s.names, r.listing.value, r.now), r.replies)
  {
  }

  /** A stale namespace that was not yet watched is deleted and then watched, by the same poll. */
  lemma DeletedYetWatched(cfg: Config, s: Tracking, r: Round, s': Tracking, n: string)
    requires PollResult(cfg, s, r, s') && n in DeleteCalls(cfg, s, r) && n !in s.watched
    ensures n in s'.watched && n in s'.names
  {
    var kept := DropFirst(s.names, Gone(cfg, s, r));
    assert n in New(cfg, s, r);
    assert n in Elements(s'.names[|kept|..]);
  }

  /**
   Without an explicit pattern a wildcard entry matches itself, is never in the cluster, and so is
   forgotten as a vanished namespace by the first successful poll: no wildcard survives it.
   */
  lemma WildcardsAreForgotten(cfg: Config, s: Tracking, r: Round, s': Tracking)
    requires cfg.pattern == "" && Agree(s) && CleanRound(r) && r.listing.Some? && PollResult(cfg, s, r, s')
    ensures NoWildcards(s'.names)
  {
    PollKeepsAgreement(cfg, s, r, s');
    forall w | w in s'.names ensures '*' !in w {
      assert w in s'.watched;
      if '*' in w {
        assert w !in Existing(r.listing.value);
        assert w in s.watched && w in Elements(s.names);
        WildcardsListed(s.names, w);
        GlobSelf(w);
        assert Targets(cfg, s.names, w);
        assert false;
      }
    }
  }

  /** No poll that finds only clean names ever puts a wildcard into a concrete list. */
  lemma PollKeepsConcrete(cfg: Config, s: Tracking, r: Round, s': Tracking)
    requires CleanRound(r) && PollResult(cfg, s, r, s') && NoWildcards(s.names)
    ensures NoWildcards(s'.names)
    ensures forall n :: n in s'.names ==> n in s.names || n in New(cfg, s, r)
  {
    var kept := DropFirst(s.names, Gone(cfg, s, r));
    DropKeepsMembers(s.names, Gone(cfg, s, r));
    assert s'.names == kept + s'.names[|kept|..];
    forall n | n in s'.names ensures n in s.names || n in New(cfg, s, r) {
      if n !in kept {
        assert n in Elements(s'.names[|kept|..]);
      }
    }
  }

  lemma {:induction false} DropKeepsMembers(names: seq<string>, gone: set<string>)
    ensures forall n :: n in DropFirst(names, gone) ==> n in names
  {
    if names != [] {
      DropKeepsMembers(names[1..], if names[0] in gone then gone - {names[0]} else gone);
    }
  }

  // ---------- Confinement ----------

  /** Where a name may come from: given at the start, or under an initial prefix, or within the pattern's reach. */
  predicate Rooted(cfg: Config, initial: seq<string>, n: string)
  {
    n in initial || RootedPrefix(cfg, initial, n)
  }

  predicate RootedPrefix(cfg: Config, initial: seq<string>, n: string)
  {
    (exists q :: q in Prefixes(initial) && q <= n) || WithinReach(cfg.pattern, n)
  }

  /** A pattern with a slash in it never matches anything. */
  predicate WithinReach(pattern: string, n: string)
  {
    pattern != "" && '/' !in pattern && Reach(pattern) <= n
  }

  predicate UnderHead(pattern: string, n: string)
  {
    pattern != "" && '/' !in pattern && Head(pattern) <= n
  }

  /** The same with the pattern's own text before the first star, which is what a user would expect. */
  predicate RootedInHead(cfg: Config, initial: seq<string>, n: string)
  {
    n in initial || (exists q :: q in Prefixes(initial) && q <= n) || UnderHead(cfg.pattern, n)
  }

  /** The inductive form: the prefix a name contributes to the next poll is rooted as well. */
  predicate Held(cfg: Config, initial: seq<string>, n: string)
  {
    && '*' !in n
    && Rooted(cfg, initial, n)
    && (PrefixOf(n).Some? ==> RootedPrefix(cfg, initial, PrefixOf(n).value))
  }

  lemma RootedPrefixExtends(cfg: Config, initial: seq<string>, a: string, b: string)
    requires RootedPrefix(cfg, initial, a) && a <= b
    ensures RootedPrefix(cfg, initial, b)
  {
    if q :| q in Prefixes(initial) && q <= a {
      assert q <= b;
    }
  }

  /** Whatever a poll is responsible for is rooted, and so is the prefix it will contribute. */
  lemma TargetIsHeld(cfg: Config, initial: seq<string>, names: seq<string>, n: string)
    requires Clean(n)
    requires forall m :: m in names ==> Held(cfg, initial, m)
    requires Targets(cfg, names, n)
    ensures Held(cfg, initial, n) && RootedPrefix(cfg, initial, n)
  {
    if MatchesPattern(Patterns(cfg, names), n) {
      var p :| p in Patterns(cfg, names) && Glob(p, n);
      if cfg.pattern == "" {
        WildcardsListed(names, p);
        assert false;
      } else {
        assert p == cfg.pattern;
        MatchKeepsReach(p, n);
        SlashNeverMatches(p, n);
      }
    } else {
      var q :| q in Prefixes(names) && q <= n;
      var m :| m in names && PrefixOf(m).Some? && PrefixOf(m).value == q;
      assert Held(cfg, initial, m);
      RootedPrefixExtends(cfg, initial, q, n);
      PrefixShape(m);
      if PrefixOf(n).Some? {
        PrefixExtendsRoot(q, n);
        RootedPrefixExtends(cfg, initial, q, PrefixOf(n).value);
      }
    }
  }

  lemma InitialIsHeld(cfg: Config, initial: seq<string>, n: string)
    requires NoWildcards(initial) && n in initial
    ensures Held(cfg, initial, n)
  {
    if PrefixOf(n).Some? {
      var q := PrefixOf(n).value;
      assert q in Prefixes(initial) && q <= q;
    }
  }

  predicate AllHeld(cfg: Config, initial: seq<string>, s: Tracking)
  {
    (forall n :: n in s.names ==> Held(cfg, initial, n)) && (forall n :: n in s.watched ==> Held(cfg, initial, n))
  }

  lemma PollKeepsHeld(cfg: Config, initial: seq<string>, s: Tracking, r: Round, s': Tracking)
    requires CleanRound(r)
    requires AllHeld(cfg, initial, s) && PollResult(cfg, s, r, s')
    ensures AllHeld(cfg, initial, s')
    ensures forall n :: n in DeleteCalls(cfg, s, r) ==> Held(cfg, initial, n) && n !in cfg.excluded
  {
    var kept := DropFirst(s.names, Gone(cfg, s, r));
    DropKeepsMembers(s.names, Gone(cfg, s, r));
    forall n | n in New(cfg, s, r) ensures Held(cfg, initial, n) {
      TargetIsHeld(cfg, initial, s.names, n);
    }
    forall n | n in s'.names ensures Held(cfg, initial, n) {
      assert s'.names == kept + s'.names[|kept|..];
      if n !in kept {
        assert n in Elements(s'.names[|kept|..]);
      }
    }
    forall n | n in DeleteCalls(cfg, s, r) ensures Held(cfg, initial, n) && n !in cfg.excluded {
      TargetIsHeld(cfg, initial, s.names, n);
    }
  }

  /** The hypotheses under which a run starts: every given name is concrete, and only given names are watched. */
  predicate ConcreteStart(s: Tracking)
  {
    NoWildcards(s.names) && s.watched <= Elements(s.names)
  }

  lemma StartIsHeld(cfg: Config, s: Tracking)
    requires ConcreteStart(s)
    ensures AllHeld(cfg, s.names, s)
  {
    forall n | n in s.names || n in s.watched ensures Held(cfg, s.names, n) {
      assert n in Elements(s.names);
      InitialIsHeld(cfg, s.names, n);
    }
  }

  /**
   Confinement. Every namespace ever watched was given at the start, or lies under an initial prefix
   or within the pattern's reach.
   */
  lemma {:induction false} Confinement(cfg: Config, states: seq<Tracking>, rounds: seq<Round>, i: nat)
    requires IsRun(cfg, states, rounds) && ConcreteStart(states[0]) && i < |states|
    ensures AllHeld(cfg, states[0].names, states[i])
    ensures forall n :: n in states[i].watched || n in states[i].names ==> Rooted(cfg, states[0].names, n)
  {
    if i == 0 {
      StartIsHeld(cfg, states[0]);
    } else {
      Confinement(cfg, states, rounds, i - 1);
      PollKeepsHeld(cfg, states[0].names, states[i - 1], rounds[i - 1], states[i]);
    }
  }

  /** What is watched was watched from the start, or else it is a cluster name found through a prefix or the pattern. */
  lemma {:induction false} WatchedIsRooted(cfg: Config, states: seq<Tracking>, rounds: seq<Round>, i: nat, n: string)
    requires IsRun(cfg, states, rounds) && ConcreteStart(states[0]) && i < |states| && n in states[i].watched
    ensures n in states[0].watched || (Clean(n) && RootedPrefix(cfg, states[0].names, n))
  {
    if i > 0 {
      if n in states[i - 1].watched {
        WatchedIsRooted(cfg, states, rounds, i - 1, n);
      } else {
        Confinement(cfg, states, rounds, i - 1);
        TargetIsHeld(cfg, states[0].names, states[i - 1].names, n);
      }
    }
  }

  /**
   Every name a run ever passes to Delete is rooted in the same way, is not excluded, and was listed
   as an active namespace older than the stale age.
   */
  lemma DeletionsAreConfined(cfg: Config, states: seq<Tracking>, rounds: seq<Round>, i: nat, n: string)
    requires IsRun(cfg, states, rounds) && ConcreteStart(states[0]) && i < |rounds|
    requires n in DeleteCalls(cfg, states[i], rounds[i])
    ensures Rooted(cfg, states[0].names, n) && n !in cfg.excluded
    ensures exists ns :: ns in rounds[i].listing.value && ns.name == n && ns.phase.Active?
                         && rounds[i].now - ns.created > cfg.staleAge
  {
    Confinement(cfg, states, rounds, i);
    PollKeepsHeld(cfg, states[0].names, states[i], rounds[i], states[i + 1]);
  }

  /** Every name these calls passed to Delete is rooted and not excluded. */
  predicate ConfinedDeletes(cfg: Config, initial: seq<string>, calls: seq<ApiCall>)
  {
    forall n :: n in DeletesOf(calls) ==> Rooted(cfg, initial, n) && n !in cfg.excluded
  }

  lemma PollConfinesDeletes(cfg: Config, states: seq<Tracking>, rounds: seq<Round>, i: nat, earlier: seq<ApiCall>, made: seq<ApiCall>)
    requires IsRun(cfg, states, rounds) && ConcreteStart(states[0]) && i < |rounds|
    requires RoundCalls(cfg, StaleIn(cfg, states[i], rounds[i]), rounds[i].replies, made)
    requires ConfinedDeletes(cfg, states[0].names, earlier)
    ensures ConfinedDeletes(cfg, states[0].names, earlier + made)
  {
    CallsConcat(earlier, made, "");
    forall n | n in DeletesOf(made) ensures Rooted(cfg, states[0].names, n) && n !in cfg.excluded {
      assert n in Elements(DeletesOf(made));
      DeletionsAreConfined(cfg, states, rounds, i, n);
    }
  }

  /** pollForNewNamespaces: one poll per tick. The healer's own fields and call log obey the confinement theorem. */
  method PollForNewNamespaces(w: Watcher, rounds: seq<Round>) returns (ghost states: seq<Tracking>)
    requires forall r :: r in rounds ==> CleanRound(r)
    modifies w
    ensures IsRun(w.cfg, states, rounds) && states[0] == old(w.State()) && states[|rounds|] == w.State()
    ensures old(w.calls) <= w.calls
    ensures ConcreteStart(states[0]) ==>
              && (forall n :: n in w.watched ==> Rooted(w.cfg, states[0].names, n))
              && ConfinedDeletes(w.cfg, states[0].names, w.calls[|old(w.calls)|..])
  {
    states := [w.State()];
    for k := 0 to |rounds|
      invariant IsRun(w.cfg, states, rounds[..k]) && states[0] == old(w.State()) && states[k] == w.State()
      invariant old(w.calls) <= w.calls
      invariant ConcreteStart(states[0]) ==> ConfinedDeletes(w.cfg, states[0].names, w.calls[|old(w.calls)|..])
    {
      assert rounds[k] in rounds;
      assert rounds[..k + 1] == rounds[..k] + [rounds[k]];
      states := PollOnce(w, rounds[k], states, rounds[..k], w.calls[|old(w.calls)|..], old(w.calls));
    }
    assert rounds[..|rounds|] == rounds;
    if ConcreteStart(states[0]) {
      Confinement(w.cfg, states, rounds, |rounds|);
    }
  }

  method PollOnce(w: Watcher, r: Round, ghost states: seq<Tracking>, ghost rounds: seq<Round>, ghost earlier: seq<ApiCall>, ghost before: seq<ApiCall>)
    returns (ghost states': seq<Tracking>)
    requires CleanRound(r) && IsRun(w.cfg, states, rounds) && states[|rounds|] == w.State() && w.calls == before + earlier
    requires ConcreteStart(states[0]) ==> ConfinedDeletes(w.cfg, states[0].names, earlier)
    modifies w
    ensures states' == states + [w.State()] && IsRun(w.cfg, states', rounds + [r])
    ensures before <= w.calls
    ensures ConcreteStart(states[0]) ==> ConfinedDeletes(w.cfg, states[0].names, w.calls[|before|..])
  {
    ghost var ops := w.Discover(r);
    RunGrows(w.cfg, states, rounds, r, w.State());
    states' := states + [w.State()];
    ghost var made := w.calls[|before + earlier|..];
    Regroup(w.calls, before, earlier);
    if ConcreteStart(states[0]) {
      PollConfinesDeletes(w.cfg, states', rounds + [r], |rounds|, earlier, made);
    }
  }

  lemma Regroup(all: seq<ApiCall>, before: seq<ApiCall>, earlier: seq<ApiCall>)
    requires before + earlier <= all
    ensures before <= all && all[|before|..] == earlier + all[|before + earlier|..]
  {
    assert all[..|before|] == (before + earlier)[..|before|];
  }

  lemma RunGrows(cfg: Config, states: seq<Tracking>, rounds: seq<Round>, r: Round, s: Tracking)
    requires IsRun(cfg, states, rounds) && CleanRound(r) && PollResult(cfg, states[|rounds|], r, s)
    ensures IsRun(cfg, states + [s], rounds + [r])
  {
    var states', rounds' := states + [s], rounds + [r];
    forall i | 0 <= i < |rounds'| ensures CleanRound(rounds'[i]) && PollResult(cfg, states'[i], rounds'[i], states'[i + 1]) {
      if i < |rounds| {
        assert states'[i] == states[i] && states'[i + 1] == states[i + 1] && rounds'[i] == rounds[i];
      }
    }
  }
}
