/**
 From the command line to any point of any run: where a `--namespaces` flag may lead, and exactly when
 that is no further than the text its wildcards begin with.
 */
module FlagLimits {
  import opened Text
  import opened Matching
  import opened PatternAlgebra
  import opened NamespaceRace
  import opened NamespaceWatcher
  import opened NamespaceRuns
  import opened NamespaceLimits
  import opened Startup

  /** The patterns at work: the wildcards of the flag and the polling pattern. */
  predicate AtWork(entries: seq<string>, pattern: string, g: string)
  {
    g != "" && (g in Wildcards(entries) || g == pattern)
  }

  /** Where the flag may lead: to what it spells out, under a prefix of that, or within the reach of a pattern. */
  ghost predicate Spanned(entries: seq<string>, pattern: string, n: string)
  {
    n in Explicit(entries) || SpannedPrefix(entries, pattern, n)
  }

  ghost predicate SpannedPrefix(entries: seq<string>, pattern: string, n: string)
  {
    (exists q :: q in Prefixes(entries) && q <= n) || (exists g :: AtWork(entries, pattern, g) && WithinReach(g, n))
  }

  /** The same with the text before the first star of each pattern, which is what a user would expect. */
  ghost predicate SpannedByHead(entries: seq<string>, pattern: string, n: string)
  {
    n in Explicit(entries) || HeadAbove(entries, pattern, n)
  }

  ghost predicate HeadAbove(entries: seq<string>, pattern: string, n: string)
  {
    (exists q :: q in Prefixes(entries) && q <= n) || (exists g :: AtWork(entries, pattern, g) && UnderHead(g, n))
  }

  // ---------- Where a flag may lead ----------

  /** What start-up resolves the flag to is spanned by it, and so is the prefix it contributes. */
  lemma StartIsSpanned(entries: seq<string>, pattern: string, cluster: seq<string>, n: string)
    requires n in Covered(entries, cluster) && forall m :: m in cluster ==> Clean(m)
    ensures Spanned(entries, pattern, n)
    ensures PrefixOf(n).Some? ==> SpannedPrefix(entries, pattern, PrefixOf(n).value)
  {
    if n in Explicit(entries) {
      assert PrefixOf(n).Some? ==> PrefixOf(n).value in Prefixes(entries);
    } else if MatchesPattern(Wildcards(entries), n) {
      var w :| w in Wildcards(entries) && Glob(w, n);
      WildcardsListed(entries, w);
      MatchKeepsReach(w, n);
      SlashNeverMatches(w, n);
      assert AtWork(entries, pattern, w) && WithinReach(w, n);
      assert PrefixOf(n).Some? ==> WithinReach(w, PrefixOf(n).value);
    } else {
      var q :| q in Prefixes(entries) && q <= n;
      var m :| m in entries && PrefixOf(m) == Some(q);
      PrefixShape(m);
      if PrefixOf(n).Some? {
        PrefixExtendsRoot(q, n);
      }
    }
  }

  lemma ResolvedIsCovered(input: string, cluster: seq<string>, names: seq<string>, n: string)
    requires ResolvesTo(input, cluster, names) && n in names
    ensures n in Covered(Entries(input), cluster)
  {
    if NeedsResolution(Entries(input)) {
      assert n in Elements(names);
    } else {
      WildcardsListed(Entries(input), n);
      assert n in Explicit(Entries(input));
    }
  }

  lemma SpannedPrefixExtends(entries: seq<string>, pattern: string, a: string, b: string)
    requires SpannedPrefix(entries, pattern, a) && a <= b
    ensures SpannedPrefix(entries, pattern, b)
  {
    if q :| q in Prefixes(entries) && q <= a {
      assert q <= b;
    } else {
      var g :| AtWork(entries, pattern, g) && WithinReach(g, a);
      assert WithinReach(g, b);
    }
  }

  /**
   For any flag, any cluster at start-up, and any point of any run: what is watched is spelled out, or
   it is a cluster name under a prefix of what is, or within the reach of a wildcard or of the pattern.
   */
  lemma FlagConfines(cfg: Config, input: string, cluster: seq<string>, names: seq<string>,
                     states: seq<Tracking>, rounds: seq<Round>, i: nat, n: string)
    requires (forall m :: m in cluster ==> Clean(m)) && ResolvesTo(input, cluster, names)
    requires IsRun(cfg, states, rounds) && states[0] == Started(names) && i < |states| && n in states[i].watched
    ensures n in Explicit(Entries(input)) || (Clean(n) && SpannedPrefix(Entries(input), cfg.pattern, n))
  {
    var entries := Entries(input);
    StartIsConcrete(input, cluster, names);
    WatchedIsRooted(cfg, states, rounds, i, n);
    if n in Elements(names) {
      ResolvedIsCovered(input, cluster, names, n);
      StartIsSpanned(entries, cfg.pattern, cluster, n);
    } else if q :| q in Prefixes(Started(names).names) && q <= n {
      var m :| m in Started(names).names && PrefixOf(m) == Some(q);
      ResolvedIsCovered(input, cluster, names, m);
      StartIsSpanned(entries, cfg.pattern, cluster, m);
      SpannedPrefixExtends(entries, cfg.pattern, q, n);
    } else {
      assert AtWork(entries, cfg.pattern, cfg.pattern);
    }
  }

  // ---------- Exactly when it leads no further than its heads ----------

  /** Every run from this flag stays under what it spells out and under the heads of its patterns. */
  ghost predicate KeepsToHeads(cfg: Config, input: string)
  {
    forall cluster: seq<string>, names: seq<string>, states: seq<Tracking>, rounds: seq<Round> ::
      FlagRun(cfg, input, cluster, names, states, rounds) ==>
        forall n :: n in states[|rounds|].watched ==> SpannedByHead(Entries(input), cfg.pattern, n)
  }

  predicate FlagRun(cfg: Config, input: string, cluster: seq<string>, names: seq<string>, states: seq<Tracking>, rounds: seq<Round>)
  {
    && (forall n :: n in cluster ==> Clean(n)) && ResolvesTo(input, cluster, names)
    && IsRun(cfg, states, rounds) && states[0] == Started(names)
  }

  /** A cluster name within the reach of a leaky pattern that nothing accounts for. */
  ghost predicate Stray(entries: seq<string>, pattern: string, g: string, n: string)
  {
    && AtWork(entries, pattern, g) && Leaky(g) && WithinReach(g, n)
    && Clean(n) && !SpannedByHead(entries, pattern, n)
  }

  /** All runs keep to the heads if and only if no leaky pattern reaches a cluster name that nothing accounts for. */
  lemma KeepsToHeadsIff(cfg: Config, input: string)
    ensures KeepsToHeads(cfg, input) <==> forall g, n :: !Stray(Entries(input), cfg.pattern, g, n)
  {
    var entries := Entries(input);
    if forall g, n :: !Stray(entries, cfg.pattern, g, n) {
      forall cluster: seq<string>, names: seq<string>, states: seq<Tracking>, rounds: seq<Round>
        | FlagRun(cfg, input, cluster, names, states, rounds)
        ensures forall n :: n in states[|rounds|].watched ==> SpannedByHead(entries, cfg.pattern, n)
      {
        forall n | n in states[|rounds|].watched ensures SpannedByHead(entries, cfg.pattern, n) {
          FlagConfines(cfg, input, cluster, names, states, rounds, |rounds|, n);
          NoStray(entries, cfg.pattern, n);
        }
      }
    }
    if g, n :| Stray(entries, cfg.pattern, g, n) {
      var cluster, names, states, rounds := RunTo(cfg, input, g, n);
      assert n in states[|rounds|].watched && !SpannedByHead(entries, cfg.pattern, n);
    }
  }

  lemma NoStray(entries: seq<string>, pattern: string, n: string)
    requires forall g, n :: !Stray(entries, pattern, g, n)
    requires n in Explicit(entries) || (Clean(n) && SpannedPrefix(entries, pattern, n))
    ensures SpannedByHead(entries, pattern, n)
  {
    if n !in Explicit(entries) && !(exists q :: q in Prefixes(entries) && q <= n) {
      var g :| AtWork(entries, pattern, g) && WithinReach(g, n);
      assert !Stray(entries, pattern, g, n);
      if !Leaky(g) {
        assert UnderHead(g, n);
      }
    }
  }

  /** Every flag resolves to something, whatever the cluster. */
  lemma SomeResolution(input: string, cluster: seq<string>) returns (names: seq<string>)
    ensures ResolvesTo(input, cluster, names)
  {
    if input == "" {
      names := [];
    } else if NeedsResolution(Entries(input)) {
      names := Enumerate(Covered(Entries(input), cluster));
    } else {
      names := Entries(input);
    }
  }

  /** The run: a match of the pattern contributes its prefix, and the second poll finds the stray name. */
  lemma RunTo(cfg: Config, input: string, g: string, n: string)
    returns (cluster: seq<string>, names: seq<string>, states: seq<Tracking>, rounds: seq<Round>)
    requires Stray(Entries(input), cfg.pattern, g, n)
    ensures FlagRun(cfg, input, cluster, names, states, rounds) && n in states[|rounds|].watched
  {
    assert !UnderHead(g, n);
    var m := EscapeTo(g, n);
    cluster := [m];
    names := SomeResolution(input, cluster);
    var s0 := Started(names);
    MatchIsFound(cfg, input, g, m, names);
    var s1, s2 := SecondPollReaches(cfg, s0, m, n);
    states, rounds := [s0, s1, s2], [Pair(cfg, m, n), Pair(cfg, m, n)];
    TwoRounds(cfg, states, rounds);
  }

  /** A match of a pattern at work is listed from the start, or found by the first poll. */
  lemma MatchIsFound(cfg: Config, input: string, g: string, m: string, names: seq<string>)
    requires AtWork(Entries(input), cfg.pattern, g) && Glob(g, m) && ResolvesTo(input, [m], names)
    ensures m in Started(names).names || (Targets(cfg, Started(names).names, m) && m !in Started(names).watched)
  {
    if g in Wildcards(Entries(input)) {
      EmptyFlag();
      WildcardsListed(Entries(input), g);
      assert MatchesAny(Wildcards(Entries(input)), Prefixes(Entries(input)), m);
      assert m in Elements(names);
    } else {
      assert g in Patterns(cfg, Started(names).names);
      assert m in Elements(names) ==> m in names;
    }
  }

  lemma EmptyFlag()
    ensures Entries("") == [""]
  {
    assert Split("", ',') == [""];
  }

  // ---------- The condition in terms of the flag alone ----------

  /** The reach of every leaky pattern lies under a prefix of what is spelled out, or under some pattern's head. */
  ghost predicate ReachesAreCovered(entries: seq<string>, pattern: string)
  {
    forall g :: AtWork(entries, pattern, g) && Leaky(g) && '/' !in g ==> HeadAbove(entries, pattern, Reach(g))
  }

  /** A character that occurs nowhere in the configuration. */
  predicate Unused(entries: seq<string>, pattern: string, c: char)
  {
    c != '*' && c != '/' && c !in pattern && forall e :: e in entries ==> c !in e
  }

  /**
   All runs keep to the heads if and only if the reach of every leaky pattern is covered by what is
   spelled out or by another pattern's head, provided some character is left unused.
   */
  lemma KeepsToHeadsExactly(cfg: Config, input: string, c: char)
    requires Unused(Entries(input), cfg.pattern, c)
    ensures KeepsToHeads(cfg, input) <==> ReachesAreCovered(Entries(input), cfg.pattern)
  {
    var entries := Entries(input);
    KeepsToHeadsIff(cfg, input);
    forall g, n ensures ReachesAreCovered(entries, cfg.pattern) ==> !Stray(entries, cfg.pattern, g, n) {
      CoveredIsNoStray(entries, cfg.pattern, g, n);
    }
    if forall g, n :: !Stray(entries, cfg.pattern, g, n) {
      forall g | AtWork(entries, cfg.pattern, g) && Leaky(g) && '/' !in g ensures HeadAbove(entries, cfg.pattern, Reach(g)) {
        assert !Stray(entries, cfg.pattern, g, Reach(g) + [c]);
        NoStrayIsCovered(entries, cfg.pattern, g, c);
      }
    }
  }

  lemma CoveredIsNoStray(entries: seq<string>, pattern: string, g: string, n: string)
    ensures ReachesAreCovered(entries, pattern) ==> !Stray(entries, pattern, g, n)
  {
    if ReachesAreCovered(entries, pattern) && AtWork(entries, pattern, g) && Leaky(g) && WithinReach(g, n) {
      HeadAboveExtends(entries, pattern, Reach(g), n);
    }
  }

  lemma NoStrayIsCovered(entries: seq<string>, pattern: string, g: string, c: char)
    requires Unused(entries, pattern, c) && AtWork(entries, pattern, g) && Leaky(g) && '/' !in g
    requires !Stray(entries, pattern, g, Reach(g) + [c])
    ensures HeadAbove(entries, pattern, Reach(g))
  {
    ReachIsClean(g);
    WithoutUnused(entries, pattern, Reach(g), c);
  }

  lemma HeadAboveExtends(entries: seq<string>, pattern: string, a: string, b: string)
    requires HeadAbove(entries, pattern, a) && a <= b
    ensures HeadAbove(entries, pattern, b)
  {
    if q :| q in Prefixes(entries) && q <= a {
      assert q <= b;
    } else {
      var g :| AtWork(entries, pattern, g) && UnderHead(g, a);
      assert UnderHead(g, b);
    }
  }

  lemma ReachIsClean(g: string)
    requires Leaky(g) && '/' !in g
    ensures Clean(Reach(g))
  {
    PrefixShape(Head(g));
    assert Reach(g) <= g;
  }

  /** What accounts for a name that ends in an unused character accounts for the name without it. */
  lemma WithoutUnused(entries: seq<string>, pattern: string, r: string, c: char)
    requires Unused(entries, pattern, c) && SpannedByHead(entries, pattern, r + [c])
    ensures HeadAbove(entries, pattern, r)
  {
    var n := r + [c];
    assert n[|r|] == c;
    assert n !in Explicit(entries);
    if q :| q in Prefixes(entries) && q <= n {
      var m :| m in entries && PrefixOf(m) == Some(q);
      PrefixShape(m);
      NotToTheEnd(q, m, r, c);
    } else {
      var g :| AtWork(entries, pattern, g) && UnderHead(g, n);
      WildcardsListed(entries, g);
      NotToTheEnd(Head(g), g, r, c);
      assert UnderHead(g, r);
    }
  }

  lemma NotToTheEnd(q: string, m: string, r: string, c: char)
    requires q <= m && c !in m && q <= r + [c]
    ensures q <= r
  {
    assert forall k :: 0 <= k < |q| ==> q[k] == m[k] && q[k] != c;
    assert (r + [c])[|r|] == c;
  }

  // ---------- One wildcard ----------

  /** Every run of a healer started with the single entry `p*` watches nothing outside `p`. */
  ghost predicate StaysUnder(cfg: Config, input: string, p: string)
  {
    forall cluster: seq<string>, names: seq<string>, states: seq<Tracking>, rounds: seq<Round> ::
      FlagRun(cfg, input, cluster, names, states, rounds) ==> forall n :: n in states[|rounds|].watched ==> p <= n
  }

  /** ... which is so exactly when `p` itself yields no discovery prefix. */
  lemma StaysUnderExactly(cfg: Config, input: string, p: string)
    requires Entries(input) == [p + "*"] && Clean(p) && cfg.pattern == p + "*"
    ensures StaysUnder(cfg, input, p) <==> PrefixOf(p).None?
  {
    var g := p + "*";
    HeadOfPrefixStar(p);
    LoneEntry(input, p);
    assert KeepsToHeads(cfg, input) <==> StaysUnder(cfg, input, p);
    KeepsToHeadsIff(cfg, input);
    if PrefixOf(p).Some? {
      var m, n := FindEscape(g);
      assert Stray(Entries(input), g, g, n);
    }
  }

  lemma LoneEntry(input: string, p: string)
    requires Entries(input) == [p + "*"] && Clean(p)
    ensures forall g :: AtWork(Entries(input), p + "*", g) <==> g == p + "*"
    ensures forall n :: SpannedByHead(Entries(input), p + "*", n) <==> p <= n
  {
    var e := Entries(input);
    LoneWildcard(e, p);
    HeadOfPrefixStar(p);
    forall n ensures SpannedByHead(e, p + "*", n) <==> p <= n {
      assert AtWork(e, p + "*", p + "*");
      assert UnderHead(p + "*", n) <==> p <= n;
    }
  }

  lemma LoneWildcard(entries: seq<string>, p: string)
    requires entries == [p + "*"] && Clean(p)
    ensures Wildcards(entries) == [p + "*"] && Explicit(entries) == {} && Prefixes(entries) == {}
  {
    assert (p + "*")[|p|] == '*';
    assert '*' in entries[0] && entries[..0] == [];
  }
}
