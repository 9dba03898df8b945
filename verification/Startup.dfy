/**
 Start-up: the `--namespaces` flag is resolved against the cluster into the healer's first list,
 and the polling pattern is derived from it.
 */
module Startup {
  import opened Text
  import opened Matching
  import opened NamespaceRace
  import opened NamespaceWatcher
  import opened NamespaceRuns

  datatype Resolution = Resolved(names: seq<string>) | ListingFailed

  /** The comma-separated entries of the flag, trimmed. */
  function Entries(input: string): seq<string>
  {
    var parts := Split(input, ',');
    seq(|parts|, i requires 0 <= i < |parts| => TrimSpace(parts[i]))
  }

  /** Texts without a comma, written one after the other with commas between, come back trimmed. */
  lemma EntriesMeaning(parts: seq<string>, i: nat)
    requires i < |parts| && forall part :: part in parts ==> ',' !in part
    ensures |Entries(Join(parts, ','))| == |parts| && Entries(Join(parts, ','))[i] == TrimSpace(parts[i])
  {
    SplitJoin(parts, ',');
  }

  predicate NeedsResolution(entries: seq<string>)
  {
    Wildcards(entries) != [] || Prefixes(entries) != {}
  }

  function Explicit(entries: seq<string>): set<string>
  {
    set n | n in entries && '*' !in n
  }

  /** The names the flag stands for: those it spells out, and the cluster's names it covers. */
  function Covered(entries: seq<string>, cluster: seq<string>): set<string>
  {
    Explicit(entries) + set n | n in cluster && MatchesAny(Wildcards(entries), Prefixes(entries), n)
  }

  /** In terms of the entries and the cluster. */
  lemma CoveredMeaning(entries: seq<string>, cluster: seq<string>, n: string)
    ensures n in Covered(entries, cluster) <==>
            || (n in entries && '*' !in n)
            || (n in cluster && ((exists e :: e in entries && '*' in e && Glob(e, n)) ||
                                 (exists e :: e in entries && PrefixOf(e).Some? && PrefixOf(e).value <= n)))
  {
    if w :| w in Wildcards(entries) && Glob(w, n) {
      WildcardsListed(entries, w);
    }
    if e :| e in entries && '*' in e && Glob(e, n) {
      WildcardsListed(entries, e);
    }
    if e :| e in entries && PrefixOf(e).Some? && PrefixOf(e).value <= n {
      assert PrefixOf(e).value in Prefixes(entries);
    }
  }

  lemma NeedsMeaning(entries: seq<string>)
    ensures NeedsResolution(entries) <==> exists e :: e in entries && ('*' in e || PrefixOf(e).Some?)
  {
    if Wildcards(entries) != [] {
      WildcardsListed(entries, Wildcards(entries)[0]);
    }
    if e :| e in entries && ('*' in e || PrefixOf(e).Some?) {
      WildcardsListed(entries, e);
      assert PrefixOf(e).Some? ==> PrefixOf(e).value in Prefixes(entries);
    }
  }

  /** The cluster has to be listed exactly when what the entries stand for depends on it. */
  lemma ListingMattersIff(entries: seq<string>)
    ensures NeedsResolution(entries) <==> exists c: seq<string>, d: seq<string> :: Covered(entries, c) != Covered(entries, d)
  {
    NeedsMeaning(entries);
    if e :| e in entries && ('*' in e || PrefixOf(e).Some?) {
      var n := AnotherMatch(entries, e);
      CoveredMeaning(entries, [n], n);
      CoveredMeaning(entries, [], n);
      assert n in [n];
      assert Covered(entries, [n]) != Covered(entries, []);
    } else {
      forall c: seq<string>, d: seq<string> ensures Covered(entries, c) == Covered(entries, d) {
        forall n ensures n in Covered(entries, c) <==> n in Covered(entries, d) {
          CoveredMeaning(entries, c, n);
          CoveredMeaning(entries, d, n);
        }
      }
    }
  }

  /** Something the entry stands for in some cluster and that is not spelled out. */
  lemma AnotherMatch(entries: seq<string>, e: string) returns (n: string)
    requires e in entries && ('*' in e || PrefixOf(e).Some?)
    ensures !(n in entries && '*' !in n)
    ensures ('*' in e && Glob(e, n)) || (PrefixOf(e).Some? && PrefixOf(e).value <= n)
  {
    if '*' in e {
      n := e;
      GlobSelf(e);
    } else {
      n := PrefixOf(e).value + "*";
      assert n[|n| - 1] == '*';
    }
  }

  /** Where nothing is to be resolved, the flag stands for its entries in any cluster. */
  lemma NothingToResolve(entries: seq<string>, cluster: seq<string>)
    requires !NeedsResolution(entries)
    ensures Covered(entries, cluster) == Elements(entries)
  {
    NeedsMeaning(entries);
    forall n ensures n in Covered(entries, cluster) <==> n in entries {
      CoveredMeaning(entries, cluster, n);
    }
  }

  /** What resolving a non-empty flag may return for a cluster, up to order. */
  predicate ResolvesTo(input: string, cluster: seq<string>, names: seq<string>)
  {
    var entries := Entries(input);
    if input == "" then names == []
    else if !NeedsResolution(entries) then names == entries
    else Distinct(names) && Elements(names) == Covered(entries, cluster)
  }

  method TrimEntries(input: string) returns (patterns: seq<string>)
    ensures patterns == Entries(input)
  {
    patterns := Split(input, ',');
    for i := 0 to |patterns|
      invariant |patterns| == |Split(input, ',')|
      invariant forall k :: 0 <= k < i ==> patterns[k] == TrimSpace(Split(input, ',')[k])
      invariant forall k :: i <= k < |patterns| ==> patterns[k] == Split(input, ',')[k]
    {
      patterns := patterns[i := TrimSpace(patterns[i])];
    }
  }

  method AnyWildcard(patterns: seq<string>) returns (found: bool)
    ensures found <==> Wildcards(patterns) != []
  {
    for k := 0 to |patterns|
      invariant Wildcards(patterns[..k]) == []
    {
      assert patterns[..k + 1][..k] == patterns[..k];
      if '*' in patterns[k] {
        WildcardsListed(patterns, patterns[k]);
        return true;
      }
    }
    assert patterns[..|patterns|] == patterns;
    return false;
  }

  method ExplicitEntries(patterns: seq<string>) returns (names: set<string>)
    ensures names == Explicit(patterns)
  {
    names := {};
    for k := 0 to |patterns|
      invariant names == Explicit(patterns[..k])
    {
      assert patterns[..k + 1] == patterns[..k] + [patterns[k]];
      if '*' !in patterns[k] {
        names := names + {patterns[k]};
      }
    }
    assert patterns[..|patterns|] == patterns;
  }

  method MatchesWildcard(patterns: seq<string>, name: string) returns (hit: bool)
    ensures hit == MatchesPattern(Wildcards(patterns), name)
  {
    for k := 0 to |patterns|
      invariant !MatchesPattern(Wildcards(patterns[..k]), name)
    {
      assert patterns[..k + 1][..k] == patterns[..k];
      if '*' in patterns[k] && Glob(patterns[k], name) {
        WildcardsListed(patterns, patterns[k]);
        return true;
      }
    }
    assert patterns[..|patterns|] == patterns;
    return false;
  }

  lemma ResolvedIsCovered(input: string, cluster: Option<seq<string>>)
    ensures NeedsResolution(Entries(input)) <==> exists c: seq<string>, d: seq<string> :: Covered(Entries(input), c) != Covered(Entries(input), d)
    ensures !NeedsResolution(Entries(input)) ==> forall c :: Covered(Entries(input), c) == Elements(Entries(input))
  {
    ListingMattersIff(Entries(input));
    if !NeedsResolution(Entries(input)) {
      forall c ensures Covered(Entries(input), c) == Elements(Entries(input)) {
        NothingToResolve(Entries(input), c);
      }
    }
  }

  /** resolveWildcardNamespaces, with the cluster's answer to the listing as a parameter. */
  method ResolveWildcardNamespaces(input: string, cluster: Option<seq<string>>) returns (r: Resolution)
    ensures r.Resolved? ==> ResolvesTo(input, if cluster.Some? then cluster.value else [], r.names)
    ensures r.ListingFailed? <==>
            input != "" && cluster.None? && exists c: seq<string>, d: seq<string> :: Covered(Entries(input), c) != Covered(Entries(input), d)
    ensures input == "" ==> r == Resolved([])
    ensures input != "" && r.Resolved? ==> Elements(r.names) == Covered(Entries(input), if cluster.Some? then cluster.value else [])
  {
    ResolvedIsCovered(input, cluster);
    if input == "" {
      return Resolved([]);
    }
    var patterns := TrimEntries(input);
    var hasWildcards := AnyWildcard(patterns);
    var needsResolution := hasWildcards;
    var prefixes := ExtractPrefixes(patterns);
    if prefixes != {} {
      needsResolution := true;
    }
    if !needsResolution {
      return Resolved(patterns);
    }
    if cluster.None? {
      return ListingFailed;
    }
    var list := cluster.value;
    var resolved := CoverListing(patterns, prefixes, hasWildcards, list);
    var final := ListOf(resolved);
    r := Resolved(final);
  }

  /** The loop over the cluster's namespaces, on top of the names the flag spells out. */
  method CoverListing(patterns: seq<string>, prefixes: set<string>, hasWildcards: bool, list: seq<string>)
    returns (resolved: set<string>)
    requires prefixes == Prefixes(patterns) && (hasWildcards <==> Wildcards(patterns) != [])
    ensures resolved == Covered(patterns, list)
  {
    resolved := ExplicitEntries(patterns);
    for k := 0 to |list|
      invariant resolved == Covered(patterns, list[..k])
    {
      var name := list[k];
      CoveredStep(patterns, list[..k], name);
      assert list[..k + 1] == list[..k] + [name];
      var matched := false;
      if hasWildcards {
        matched := MatchesWildcard(patterns, name);
        if matched {
          resolved := resolved + {name};
        }
      }
      if name !in resolved {
        var hit := SomePrefixMatches(prefixes, name);
        if hit {
          resolved := resolved + {name};
        }
      }
    }
    assert list[..|list|] == list;
  }

  /** The keys of a map, in whatever order they come. */
  method ListOf(names: set<string>) returns (list: seq<string>)
    ensures Distinct(list) && Elements(list) == names
  {
    list := [];
    var rest := names;
    while rest != {}
      invariant rest <= names && Distinct(list) && Elements(list) == names - rest
    {
      var n :| n in rest;
      assert n !in Elements(list);
      ElementsSnoc(list, n);
      rest := rest - {n};
      list := list + [n];
    }
  }

  lemma CoveredStep(entries: seq<string>, cluster: seq<string>, name: string)
    ensures Covered(entries, cluster + [name]) == Covered(entries, cluster)
            + if MatchesAny(Wildcards(entries), Prefixes(entries), name) then {name} else {}
  {
  }

  /** The polling pattern: the flag, or else, if polling is enabled, the first wildcard among the namespaces. */
  function DerivedPattern(enabled: bool, flag: string, input: string): string
  {
    if flag != "" then flag
    else if enabled && input != "" && Wildcards(Entries(input)) != [] then Wildcards(Entries(input))[0]
    else ""
  }

  lemma {:induction false} FirstWildcard(entries: seq<string>)
    ensures Wildcards(entries) == [] <==> forall e :: e in entries ==> '*' !in e
    ensures forall i :: 0 <= i < |entries| && '*' in entries[i] && (forall j :: 0 <= j < i ==> '*' !in entries[j]) ==>
              Wildcards(entries) != [] && Wildcards(entries)[0] == entries[i]
  {
    if entries != [] {
      var init := entries[..|entries| - 1];
      FirstWildcard(init);
      assert entries == init + [entries[|entries| - 1]];
      assert forall j :: 0 <= j < |init| ==> init[j] == entries[j] && init[j] in init;
    }
  }

  method PollingPattern(enabled: bool, flag: string, input: string) returns (pattern: string)
    ensures pattern == DerivedPattern(enabled, flag, input)
    ensures flag != "" ==> pattern == flag
    ensures flag == "" && !(enabled && input != "" && exists e :: e in Entries(input) && '*' in e) ==> pattern == ""
    ensures flag == "" && enabled && input != "" ==>
              forall i :: 0 <= i < |Entries(input)| && '*' in Entries(input)[i] && (forall j :: 0 <= j < i ==> '*' !in Entries(input)[j]) ==>
                pattern == Entries(input)[i]
  {
    if !enabled || flag != "" || input == "" {
      return flag;
    }
    var entries := TrimEntries(input);
    var wildcards := CollectWildcards(entries);
    FirstWildcard(entries);
    pattern := if wildcards != [] then wildcards[0] else "";
  }

  // ---------- Start-up against discovery ----------

  /**
   Start-up and discovery cover the same cluster names: restricted to the cluster, resolving the
   flag yields what a first poll with the raw entries as its list would match, plus the explicit names.
   */
  lemma ResolvesWhatDiscoveryMatches(cfg: Config, entries: seq<string>, list: seq<Namespace>, cluster: seq<string>)
    requires cfg.pattern == "" && Elements(cluster) == Existing(list)
    ensures Covered(entries, cluster) * Existing(list)
            == Matched(cfg, entries, list) + Explicit(entries) * Existing(list)
  {
    forall n ensures n in cluster <==> n in Existing(list) {
      assert n in cluster <==> n in Elements(cluster);
    }
  }

  /** Whatever the flag and the cluster, the healer starts from concrete names only. */
  lemma StartIsConcrete(input: string, cluster: seq<string>, names: seq<string>)
    requires ResolvesTo(input, cluster, names)
    requires forall n :: n in cluster ==> Clean(n)
    ensures ConcreteStart(Started(names))
  {
    forall n | n in names ensures '*' !in n {
      if input != "" && NeedsResolution(Entries(input)) {
        assert n in Elements(names);
      } else {
        WildcardsListed(Entries(input), n);
      }
    }
  }

  /** On the resolving path nothing is listed twice, so list and set agree from the start unless nothing was found. */
  lemma ResolvedStartAgrees(input: string, cluster: seq<string>, names: seq<string>)
    requires input != "" && NeedsResolution(Entries(input)) && ResolvesTo(input, cluster, names)
    ensures Agree(Started(names)) <==> Covered(Entries(input), cluster) != {}
  {
    StartAgreesIff(names);
    NoElements(names);
  }

  /** Watch's condition for starting the poll loop at all. */
  predicate StartsPolling(enabled: bool, cfg: Config, names: seq<string>)
  {
    enabled && (cfg.pattern != "" || Wildcards(Started(names).names) != [])
  }

  /** With polling enabled, a pattern or a wildcard in the list starts the loop; prefixes do not, and an empty list does not. */
  lemma StartsPollingMeaning(enabled: bool, cfg: Config, names: seq<string>)
    ensures StartsPolling(enabled, cfg, names) <==> enabled && (cfg.pattern != "" || exists n :: n in names && '*' in n)
  {
    FirstWildcard(Started(names).names);
    assert names == [] ==> Started(names).names == [""];
  }

  /**
   Since the resolved list holds no wildcards, polling starts exactly when there is a pattern: given
   only concrete namespaces, the prefixes extracted from them never come into play.
   */
  lemma PollingNeedsPattern(enabled: bool, cfg: Config, flag: string, input: string, cluster: seq<string>, names: seq<string>)
    requires ResolvesTo(input, cluster, names) && forall n :: n in cluster ==> Clean(n)
    requires cfg.pattern == DerivedPattern(enabled, flag, input)
    ensures StartsPolling(enabled, cfg, names) <==>
            enabled && (flag != "" || (input != "" && exists w :: w in Entries(input) && '*' in w))
  {
    StartIsConcrete(input, cluster, names);
    var started := Started(names).names;
    if w :| w in Wildcards(started) {
      WildcardsListed(started, w);
    }
    if Wildcards(started) != [] {
      WildcardsListed(started, Wildcards(started)[0]);
    }
    var entries := Entries(input);
    if w :| w in entries && '*' in w {
      WildcardsListed(entries, w);
    }
    if Wildcards(entries) != [] {
      WildcardsListed(entries, Wildcards(entries)[0]);
    }
  }

  lemma CoversNothingIff(entries: seq<string>, cluster: seq<string>)
    ensures Covered(entries, cluster) == {} <==>
            Explicit(entries) == {} && forall n :: n in cluster ==> !MatchesAny(Wildcards(entries), Prefixes(entries), n)
  {
    if Covered(entries, cluster) == {} {
      forall n | n in cluster ensures !MatchesAny(Wildcards(entries), Prefixes(entries), n) {
        assert n !in Covered(entries, cluster);
      }
    }
  }

  /**
   The healer watches the pods of all namespaces exactly when the flag is empty or nothing in it is
   spelled out and nothing in the cluster matches it.
   */
  lemma UnmatchedFlagWatchesAll(input: string, cluster: seq<string>, names: seq<string>)
    requires ResolvesTo(input, cluster, names)
    ensures Started(names) == Tracking([""], {}) <==>
            input == "" || (Explicit(Entries(input)) == {} &&
                            forall n :: n in cluster ==> !MatchesAny(Wildcards(Entries(input)), Prefixes(Entries(input)), n))
  {
    var entries := Entries(input);
    NoElements(names);
    if input != "" {
      if NeedsResolution(entries) {
        CoversNothingIff(entries, cluster);
      } else {
        assert entries[0] in entries;
        WildcardsListed(entries, entries[0]);
        assert entries[0] in Explicit(entries);
      }
    }
  }
}
