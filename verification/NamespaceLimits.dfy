/**
 The exact limits of namespace polling: when runs stay within the text a pattern begins with, and how
 many polls of an unchanged cluster it takes to settle.
 */
module NamespaceLimits {
  import opened Text
  import opened Matching
  import opened PatternAlgebra
  import opened NamespaceRace
  import opened NamespaceWatcher
  import opened NamespaceRuns

  // ---------- Polls that happen ----------

  lemma {:induction false} Enumerate(names: set<string>) returns (list: seq<string>)
    ensures Distinct(list) && Elements(list) == names
  {
    list := [];
    if names != {} {
      var n :| n in names;
      list := Enumerate(names - {n});
      assert n !in Elements(list);
      ElementsSnoc(list, n);
      list := list + [n];
    }
  }

  /** Every poll has an outcome. */
  lemma SomePoll(cfg: Config, s: Tracking, r: Round) returns (s': Tracking)
    ensures PollResult(cfg, s, r, s')
  {
    var kept := DropFirst(s.names, Gone(cfg, s, r));
    var found := Enumerate(New(cfg, s, r));
    s' := Tracking(kept + found, s.watched - Gone(cfg, s, r) + New(cfg, s, r));
    assert s'.names[|kept|..] == found;
  }

  /** A young namespace of that name. */
  function Young(cfg: Config, name: string): Namespace
  {
    Namespace(name, -cfg.staleAge, Active, 0)
  }

  /** The cluster holding just these two young namespaces. */
  function Pair(cfg: Config, m: string, n: string): Round
  {
    Round(Some([Young(cfg, m), Young(cfg, n)]), 0, (x: string) => Replies(Success, Success, Success))
  }

  lemma PairIsClean(cfg: Config, m: string, n: string)
    requires m != n && Clean(m) && Clean(n)
    ensures CleanRound(Pair(cfg, m, n))
    ensures Existing(Pair(cfg, m, n).listing.value) == {m, n}
    ensures forall names :: Stale(cfg, names, Pair(cfg, m, n).listing.value, 0) == {}
  {
    var list := Pair(cfg, m, n).listing.value;
    assert list[0].name == m && list[1].name == n;
  }

  /** What a poll of that pair does about either of the two. */
  lemma PairPoll(cfg: Config, s: Tracking, m: string, n: string, s': Tracking)
    requires m != n && Clean(m) && Clean(n) && PollResult(cfg, s, Pair(cfg, m, n), s')
    ensures Untracked(cfg, Stale(cfg, s.names, Pair(cfg, m, n).listing.value, 0), Pair(cfg, m, n).replies) == {}
    ensures forall x :: x in {m, n} ==> (x in s'.watched <==> x in s.watched || Targets(cfg, s.names, x))
    ensures forall x :: x in {m, n} && (x in s.names || (Targets(cfg, s.names, x) && x !in s.watched)) ==> x in s'.names
  {
    var r := Pair(cfg, m, n);
    PairIsClean(cfg, m, n);
    assert Stale(cfg, s.names, r.listing.value, r.now) == {};
    var gone, kept := Gone(cfg, s, r), DropFirst(s.names, Gone(cfg, s, r));
    assert m !in gone && n !in gone;
    DropKeepsOthers(s.names, gone);
    assert s'.names == kept + s'.names[|kept|..];
    assert forall x :: x in Elements(s'.names[|kept|..]) ==> x in s'.names;
  }

  lemma {:induction false} DropKeepsOthers(names: seq<string>, gone: set<string>)
    ensures forall x :: x in names && x !in gone ==> x in DropFirst(names, gone)
  {
    if names != [] {
      DropKeepsOthers(names[1..], if names[0] in gone then gone - {names[0]} else gone);
    }
  }

  /**
   A namespace that is listed from the start, or found by the first poll, contributes its prefix, and so
   a second poll of the same two young namespaces watches whatever lies under that prefix.
   */
  lemma SecondPollReaches(cfg: Config, s0: Tracking, m: string, n: string) returns (s1: Tracking, s2: Tracking)
    requires m != n && Clean(m) && Clean(n) && PrefixOf(m).Some? && PrefixOf(m).value <= n
    requires m in s0.names || (Targets(cfg, s0.names, m) && m !in s0.watched)
    ensures CleanRound(Pair(cfg, m, n)) && PollResult(cfg, s0, Pair(cfg, m, n), s1) && PollResult(cfg, s1, Pair(cfg, m, n), s2)
    ensures n in s2.watched && (n !in s0.watched && !Targets(cfg, s0.names, n) ==> n !in s1.watched)
    ensures Untracked(cfg, Stale(cfg, s0.names, Pair(cfg, m, n).listing.value, 0), Pair(cfg, m, n).replies) == {}
    ensures Untracked(cfg, Stale(cfg, s1.names, Pair(cfg, m, n).listing.value, 0), Pair(cfg, m, n).replies) == {}
  {
    PairIsClean(cfg, m, n);
    s1 := SomePoll(cfg, s0, Pair(cfg, m, n));
    PairPoll(cfg, s0, m, n, s1);
    s2 := SomePoll(cfg, s1, Pair(cfg, m, n));
    PairPoll(cfg, s1, m, n, s2);
    assert PrefixOf(m).value in Prefixes(s1.names);
    assert Targets(cfg, s1.names, n);
  }

  lemma NoInitialPrefix()
    ensures Prefixes([""]) == {}
  {
  }

  predicate SlashFreeNames(s: Tracking)
  {
    (forall n :: n in s.names ==> '/' !in n) && (forall n :: n in s.watched ==> '/' !in n)
  }

  /** Two polls of one unchanged cluster, neither of which deletes anything. */
  predicate QuietPair(cfg: Config, s0: Tracking, r1: Round, s1: Tracking, r2: Round, s2: Tracking)
  {
    && NoWildcards(s0.names) && SlashFreeNames(s0)
    && r1.listing.Some? && r1.listing == r2.listing && CleanRound(r1)
    && PollResult(cfg, s0, r1, s1) && PollResult(cfg, s1, r2, s2)
    && Untracked(cfg, Stale(cfg, s0.names, r1.listing.value, r1.now), r1.replies) == {}
    && Untracked(cfg, Stale(cfg, s1.names, r2.listing.value, r2.now), r2.replies) == {}
  }

  /** From a healer that watches everything, a match of the pattern leads to what lies under its prefix. */
  lemma ReachedFromNothing(cfg: Config, m: string, n: string) returns (s1: Tracking, s2: Tracking)
    requires cfg.pattern != "" && Glob(cfg.pattern, m) && m != "" && m != n && Clean(m) && Clean(n)
    requires PrefixOf(m).Some? && PrefixOf(m).value <= n && !Glob(cfg.pattern, n)
    ensures var s0, r := Tracking([""], {}), Pair(cfg, m, n);
            QuietPair(cfg, s0, r, s1, r, s2) && n in s2.watched && n !in s1.watched
  {
    var s0 := Tracking([""], {});
    NoInitialPrefix();
    assert cfg.pattern in Patterns(cfg, s0.names);
    assert Targets(cfg, s0.names, m) && !Targets(cfg, s0.names, n);
    s1, s2 := SecondPollReaches(cfg, s0, m, n);
  }

  // ---------- Confinement, exactly ----------

  /** Every run from every concrete start stays under what was given and under the text before the pattern's first star. */
  ghost predicate Confines(cfg: Config)
  {
    forall states: seq<Tracking>, rounds: seq<Round> :: IsRun(cfg, states, rounds) && ConcreteStart(states[0]) ==>
                               forall n :: n in states[|rounds|].watched ==> RootedInHead(cfg, states[0].names, n)
  }

  /** Which is so exactly when the pattern does not leak, or matches nothing at all. */
  lemma ConfinesExactly(cfg: Config)
    ensures Confines(cfg) <==> '/' in cfg.pattern || !Leaky(cfg.pattern)
  {
    if '/' in cfg.pattern || !Leaky(cfg.pattern) {
      forall states: seq<Tracking>, rounds: seq<Round> | IsRun(cfg, states, rounds) && ConcreteStart(states[0])
        ensures forall n :: n in states[|rounds|].watched ==> RootedInHead(cfg, states[0].names, n)
      {
        Confinement(cfg, states, rounds, |rounds|);
      }
    } else {
      var states, rounds, n := EscapeRun(cfg);
      assert n in states[|rounds|].watched && !RootedInHead(cfg, states[0].names, n);
    }
  }

  lemma EscapeRun(cfg: Config) returns (states: seq<Tracking>, rounds: seq<Round>, n: string)
    requires Leaky(cfg.pattern) && '/' !in cfg.pattern
    ensures IsRun(cfg, states, rounds) && ConcreteStart(states[0])
    ensures n in states[|rounds|].watched && !RootedInHead(cfg, states[0].names, n)
  {
    var m;
    m, n := FindEscape(cfg.pattern);
    var s1, s2 := ReachedFromNothing(cfg, m, n);
    states, rounds := [Tracking([""], {}), s1, s2], [Pair(cfg, m, n), Pair(cfg, m, n)];
    PairIsClean(cfg, m, n);
    TwoRounds(cfg, states, rounds);
    NoInitialPrefix();
  }

  lemma TwoRounds(cfg: Config, states: seq<Tracking>, rounds: seq<Round>)
    requires |states| == 3 && |rounds| == 2 && CleanRound(rounds[0]) && CleanRound(rounds[1])
    requires PollResult(cfg, states[0], rounds[0], states[1]) && PollResult(cfg, states[1], rounds[1], states[2])
    ensures IsRun(cfg, states, rounds)
  {
    forall i | 0 <= i < |rounds| ensures CleanRound(rounds[i]) && PollResult(cfg, states[i], rounds[i], states[i + 1]) {
      assert i == 0 || i == 1;
    }
  }

  /** A match of a leaky pattern, and a name under its prefix that is not under the pattern's head. */
  lemma FindEscape(pattern: string) returns (m: string, n: string)
    requires Leaky(pattern) && '/' !in pattern
    ensures Glob(pattern, m) && PrefixOf(m) == Some(Reach(pattern)) && Reach(pattern) <= n
    ensures !Glob(pattern, n) && !(Head(pattern) <= n) && Clean(m) && Clean(n) && m != n && n != "" && m != ""
  {
    var head, q := Head(pattern), Reach(pattern);
    PrefixShape(head);
    n := q + [Other(head[|q|])];
    OffPath(head, q, Other(head[|q|]));
    m := EscapeTo(pattern, n);
  }

  /** Whatever lies within the reach of a leaky pattern but not under its head is contributed by a match. */
  lemma EscapeTo(pattern: string, n: string) returns (m: string)
    requires Leaky(pattern) && '/' !in pattern && Reach(pattern) <= n && !(Head(pattern) <= n)
    ensures Glob(pattern, m) && PrefixOf(m) == Some(Reach(pattern)) && Clean(m) && m != "" && m != n && !Glob(pattern, n)
    ensures Reach(pattern) != "" && forall c :: c in Reach(pattern) ==> c in m
  {
    m := Bare(pattern);
    LeakyEscapes(pattern);
    BareCharacters(pattern);
    PrefixShape(m);
    GlobStartsWithHead(pattern, m);
    if Glob(pattern, n) {
      GlobStartsWithHead(pattern, n);
    }
    assert m[..|Reach(pattern)|] == Reach(pattern);
  }

  lemma OffPath(head: string, q: string, c: char)
    requires q <= head && |q| < |head| && head[|q|] != c
    ensures !(head <= q + [c])
  {
    assert (q + [c])[|q|] == c;
  }

  // ---------- Settling ----------

  /** Concrete lists contribute no patterns, so that only the explicit one matches. */
  lemma SamePatterns(cfg: Config, a: seq<string>, b: seq<string>, n: string)
    requires NoWildcards(a) && MatchesPattern(Patterns(cfg, a), n)
    ensures MatchesPattern(Patterns(cfg, b), n) && cfg.pattern != "" && Glob(cfg.pattern, n)
  {
    var g :| g in Patterns(cfg, a) && Glob(g, n);
    if cfg.pattern == "" {
      WildcardsListed(a, g);
    }
    assert g in Patterns(cfg, b);
  }

  /**
   What a poll is responsible for because of a name the poll before it found, that one already was if
   the name was found through a prefix, or if the pattern is steady.
   */
  lemma NewPrefixCovered(cfg: Config, names: seq<string>, m: string, q: string, n: string)
    requires NoWildcards(names) && Targets(cfg, names, m) && PrefixOf(m) == Some(q)
    requires '/' !in m && q <= n && '/' !in n
    requires Steady(cfg.pattern) || !MatchesPattern(Patterns(cfg, names), m)
    ensures Targets(cfg, names, n)
  {
    if MatchesPattern(Patterns(cfg, names), m) {
      SamePatterns(cfg, names, names, m);
      SteadyCovers(cfg.pattern, m, n);
      assert cfg.pattern in Patterns(cfg, names);
    } else {
      var q0 :| q0 in Prefixes(names) && q0 <= m;
      var m0 :| m0 in names && PrefixOf(m0) == Some(q0);
      PrefixShape(m0);
      PrefixExtendsRoot(q0, m);
      assert q0 <= n;
    }
  }

  /** Under the same condition for all the names it found, a poll widens nothing. */
  lemma TargetsShrink(cfg: Config, s0: Tracking, r1: Round, s1: Tracking, n: string)
    requires NoWildcards(s0.names) && CleanRound(r1) && PollResult(cfg, s0, r1, s1)
    requires Steady(cfg.pattern) || forall m :: m in New(cfg, s0, r1) ==> !MatchesPattern(Patterns(cfg, s0.names), m)
    requires '/' !in n && Targets(cfg, s1.names, n)
    ensures Targets(cfg, s0.names, n)
  {
    PollKeepsConcrete(cfg, s0, r1, s1);
    if MatchesPattern(Patterns(cfg, s1.names), n) {
      SamePatterns(cfg, s1.names, s0.names, n);
    } else {
      var q :| q in Prefixes(s1.names) && q <= n;
      var m :| m in s1.names && PrefixOf(m) == Some(q);
      if m in s0.names {
        assert q in Prefixes(s0.names);
      } else {
        NewPrefixCovered(cfg, s0.names, m, q, n);
      }
    }
  }

  /** A second quiet poll changes nothing if it is responsible for nothing the first was not. */
  lemma SettlesIfShrinking(cfg: Config, s0: Tracking, r1: Round, s1: Tracking, r2: Round, s2: Tracking)
    requires QuietPair(cfg, s0, r1, s1, r2, s2)
    requires forall n :: '/' !in n && Targets(cfg, s1.names, n) ==> Targets(cfg, s0.names, n)
    ensures s2 == s1
  {
    var list := r1.listing.value;
    forall n | n in Matched(cfg, s1.names, list) ensures n in s1.watched {
      assert Targets(cfg, s0.names, n);
    }
    assert New(cfg, s1, r2) == {};
    forall n | n in s1.watched && n !in Existing(list) ensures !Targets(cfg, s1.names, n) {
      assert n in s0.watched && n !in Vanished(cfg, s0, list);
    }
    assert Gone(cfg, s1, r2) == {};
    DropNothing(s1.names);
    NoElements(s2.names[|s1.names|..]);
    assert s2.names == s1.names + s2.names[|s1.names|..];
  }

  /** Every quiet pair of polls settles after the first. */
  ghost predicate SettlesInOne(cfg: Config)
  {
    forall s0: Tracking, r1: Round, s1: Tracking, r2: Round, s2: Tracking :: QuietPair(cfg, s0, r1, s1, r2, s2) ==> s2 == s1
  }

  /** One quiet poll settles, whatever the start and the cluster, if and only if the pattern is steady. */
  lemma SettlesExactly(cfg: Config)
    ensures SettlesInOne(cfg) <==> Steady(cfg.pattern)
  {
    if Steady(cfg.pattern) {
      forall s0: Tracking, r1: Round, s1: Tracking, r2: Round, s2: Tracking | QuietPair(cfg, s0, r1, s1, r2, s2) ensures s2 == s1 {
        forall n | '/' !in n && Targets(cfg, s1.names, n) ensures Targets(cfg, s0.names, n) {
          TargetsShrink(cfg, s0, r1, s1, n);
        }
        SettlesIfShrinking(cfg, s0, r1, s1, r2, s2);
      }
    } else {
      var m, n := Uncovered(cfg.pattern);
      var s1, s2 := ReachedFromNothing(cfg, m, n);
      assert QuietPair(cfg, Tracking([""], {}), Pair(cfg, m, n), s1, Pair(cfg, m, n), s2);
      assert s2 != s1;
    }
  }

  /**
   For every pattern two quiet polls settle: the third changes neither structure. What the second one
   finds does not match the pattern, or the first would have found it.
   */
  lemma TwoRoundsSettle(cfg: Config, s0: Tracking, r1: Round, s1: Tracking, r2: Round, s2: Tracking, r3: Round, s3: Tracking)
    requires QuietPair(cfg, s0, r1, s1, r2, s2) && QuietPair(cfg, s1, r2, s2, r3, s3)
    ensures s3 == s2
  {
    forall m | m in New(cfg, s1, r2) ensures !MatchesPattern(Patterns(cfg, s1.names), m) {
      assert m in Existing(r1.listing.value) && m !in s1.watched;
      assert !Targets(cfg, s0.names, m);
      if MatchesPattern(Patterns(cfg, s1.names), m) {
        SamePatterns(cfg, s1.names, s0.names, m);
      }
    }
    forall n | '/' !in n && Targets(cfg, s2.names, n) ensures Targets(cfg, s1.names, n) {
      TargetsShrink(cfg, s1, r2, s2, n);
    }
    SettlesIfShrinking(cfg, s1, r2, s2, r3, s3);
  }
}
