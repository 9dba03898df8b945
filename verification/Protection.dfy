/**
 From the command line to the optimizer: which of the namespaces a flag stands for are protected from
 eviction, at any point of any run.
 */
module Protection {
  import opened Text
  import opened Matching
  import opened PatternAlgebra
  import opened NamespaceRace
  import opened NamespaceWatcher
  import opened NamespaceRuns
  import opened Startup
  import opened FlagLimits
  import opened Eviction

  /** No poll ever puts a wildcard into a concrete list. */
  lemma {:induction false} RunStaysConcrete(cfg: Config, states: seq<Tracking>, rounds: seq<Round>, i: nat)
    requires IsRun(cfg, states, rounds) && NoWildcards(states[0].names) && i < |states|
    ensures NoWildcards(states[i].names)
  {
    if i > 0 {
      RunStaysConcrete(cfg, states, rounds, i - 1);
      PollKeepsConcrete(cfg, states[i - 1], rounds[i - 1], states[i]);
    }
  }

  /** What the configuration alone protects. */
  predicate Protected(enabled: bool, flag: string, input: string, n: string)
  {
    var pattern := DerivedPattern(enabled, flag, input);
    pattern != "" && Glob(pattern, n)
  }

  /**
   Whatever the flag and the cluster, at every point of every run a namespace is protected if and only
   if the one polling pattern matches it: neither being watched nor being named protects.
   */
  lemma ProtectionIff(enabled: bool, flag: string, input: string, cluster: seq<string>, names: seq<string>,
                      cfg: Config, states: seq<Tracking>, rounds: seq<Round>, i: nat, n: string)
    requires (forall m :: m in cluster ==> Clean(m)) && ResolvesTo(input, cluster, names)
    requires cfg.pattern == DerivedPattern(enabled, flag, input)
    requires IsRun(cfg, states, rounds) && states[0] == Started(names) && i < |states|
    ensures IsTest(cfg.pattern, states[i].names, n) <==> Protected(enabled, flag, input, n)
  {
    StartIsConcrete(input, cluster, names);
    RunStaysConcrete(cfg, states, rounds, i);
    OnlyPatternProtects(cfg.pattern, states[i].names, n);
  }

  /** Every namespace some wildcard of the flag stands for is protected. */
  ghost predicate ProtectsItsWildcards(enabled: bool, input: string)
  {
    forall n :: Clean(n) && MatchesPattern(Wildcards(Entries(input)), n) ==> Protected(enabled, "", input, n)
  }

  /** The first wildcard accepts each of the others as a text; those with a slash match nothing anyway. */
  predicate FirstAcceptsAll(enabled: bool, wildcards: seq<string>)
  {
    forall w :: w in wildcards && '/' !in w ==> enabled && Glob(wildcards[0], w)
  }

  /**
   Without a pattern flag, all that the wildcards stand for is protected if and only if polling is
   enabled and the first wildcard accepts each of the others as a text, or there are none; provided
   there is some character that the first wildcard does not mention.
   */
  lemma WildcardsProtectedIff(enabled: bool, input: string, c: char)
    requires c != '*' && c != '/' && (Wildcards(Entries(input)) != [] ==> c !in Wildcards(Entries(input))[0])
    ensures ProtectsItsWildcards(enabled, input) <==> FirstAcceptsAll(enabled, Wildcards(Entries(input)))
  {
    var ws := Wildcards(Entries(input));
    if ws != [] {
      FirstIsPattern(enabled, input);
      if ProtectsItsWildcards(enabled, input) {
        forall w | w in ws && '/' !in w ensures enabled && Glob(ws[0], w) {
          ProtectedIsAccepted(enabled, input, w, c);
        }
      }
      if FirstAcceptsAll(enabled, ws) {
        forall n | Clean(n) && MatchesPattern(ws, n) ensures Protected(enabled, "", input, n) {
          var w :| w in ws && Glob(w, n);
          SlashNeverMatches(w, n);
          GlobIsTransitive(ws[0], w, n);
        }
      }
    }
  }

  lemma FirstIsPattern(enabled: bool, input: string)
    requires Wildcards(Entries(input)) != []
    ensures DerivedPattern(enabled, "", input) == if enabled then Wildcards(Entries(input))[0] else ""
    ensures Wildcards(Entries(input))[0] != ""
  {
    EmptyFlag();
    WildcardsListed(Entries(input), Wildcards(Entries(input))[0]);
  }

  lemma ProtectedIsAccepted(enabled: bool, input: string, w: string, c: char)
    requires ProtectsItsWildcards(enabled, input) && w in Wildcards(Entries(input)) && '/' !in w
    requires c != '*' && c != '/' && c !in Wildcards(Entries(input))[0]
    ensures enabled && Glob(Wildcards(Entries(input))[0], w)
  {
    var n := StarsAs(w, c);
    StarsAsMatches(w, c);
    StarsAsIsClean(w, c);
    assert MatchesPattern(Wildcards(Entries(input)), n);
    assert Protected(enabled, "", input, n);
    FirstIsPattern(enabled, input);
    UnknownIsStar(Wildcards(Entries(input))[0], w, c);
  }

  /** The text before the star of the flag's entries `p*`. */
  predicate ArePrefixStars(wildcards: seq<string>, ps: seq<string>)
  {
    |wildcards| == |ps| && forall k :: 0 <= k < |ps| ==> Clean(ps[k]) && wildcards[k] == ps[k] + "*"
  }

  /** For wildcards of the form `p*` that means that the first `p` is a prefix of all the others. */
  lemma PrefixStarsAccepted(enabled: bool, wildcards: seq<string>, ps: seq<string>)
    requires ArePrefixStars(wildcards, ps)
    ensures FirstAcceptsAll(enabled, wildcards) <==> ps == [] || (enabled && forall p :: p in ps ==> ps[0] <= p)
  {
    forall k | 0 <= k < |ps| ensures wildcards[k] in wildcards && '/' !in wildcards[k] && (Glob(wildcards[0], wildcards[k]) <==> ps[0] <= ps[k]) {
      PrefixStarAccepts(ps[0], ps[k]);
    }
    if FirstAcceptsAll(enabled, wildcards) && ps != [] {
      forall p | p in ps ensures enabled && ps[0] <= p {
        var k :| 0 <= k < |ps| && ps[k] == p;
        assert wildcards[k] in wildcards;
      }
      assert ps[0] in ps;
    }
    if enabled && forall p :: p in ps ==> ps[0] <= p {
      forall w | w in wildcards ensures Glob(wildcards[0], w) {
        var k :| 0 <= k < |wildcards| && wildcards[k] == w;
        assert ps[k] in ps;
      }
    }
  }

  lemma PrefixStarAccepts(p: string, q: string)
    requires Clean(p) && Clean(q)
    ensures Glob(p + "*", q + "*") <==> p <= q
  {
    GlobPrefixStar(p, q + "*");
    assert (q + "*")[|q|] == '*';
  }

  /** A flag of two wildcards that share no text leaves what the second one stands for open to eviction. */
  lemma SecondWildcardIsOpen(enabled: bool, input: string)
    requires Entries(input) == ["test-*", "e2e-*"] && input != ""
    ensures MatchesPattern(Wildcards(Entries(input)), "e2e-1") && !Protected(enabled, "", input, "e2e-1")
  {
    var entries := Entries(input);
    assert entries[..1] == ["test-*"] && entries[..1][..0] == [];
    assert '*' == entries[0][5] && '*' == entries[1][4];
    assert Wildcards(entries[..1]) == ["test-*"];
    assert Wildcards(entries) == ["test-*", "e2e-*"];
    assert "test-" + "*" == "test-*" && "e2e-" + "*" == "e2e-*";
    GlobPrefixStar("e2e-", "e2e-1");
    GlobPrefixStar("test-", "e2e-1");
    assert "e2e-*" in Wildcards(entries);
  }
}
