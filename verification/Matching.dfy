/**
 How a namespace name is matched: glob patterns restricted to literals and `*`, and
 the prefixes that the healer extracts from the names it already knows.
 */
module Matching {
  import opened Text

  // ---------- Globs ----------

  /** `filepath.Match` on patterns of literal characters and `*`; `*` never crosses a '/'. */
  predicate Glob(pattern: string, name: string)
    decreases |pattern| + |name|
  {
    if pattern == "" then name == ""
    else if pattern[0] == '*' then
      Glob(pattern[1..], name) || (name != "" && name[0] != '/' && Glob(pattern, name[1..]))
    else name != "" && name[0] == pattern[0] && Glob(pattern[1..], name[1..])
  }

  /** `pieces[0] fills[0] pieces[1] fills[1] ...`. */
  function Weave(pieces: seq<string>, fills: seq<string>): string
    requires |pieces| == |fills| + 1
  {
    if fills == [] then pieces[0] else pieces[0] + fills[0] + Weave(pieces[1..], fills[1..])
  }

  predicate SlashFree(fills: seq<string>)
  {
    forall f :: f in fills ==> '/' !in f
  }

  /** What a glob means: every star stands for some slash-free string. */
  ghost predicate IsFilling(pattern: string, name: string, fills: seq<string>)
  {
    |Split(pattern, '*')| == |fills| + 1 && SlashFree(fills) && Weave(Split(pattern, '*'), fills) == name
  }

  lemma SplitLiteralStep(pattern: string)
    requires pattern != "" && pattern[0] != '*'
    ensures var rest := Split(pattern[1..], '*');
            Split(pattern, '*') == [[pattern[0]] + rest[0]] + rest[1..]
  {
    var tail := pattern[1..];
    var i := FirstIndex(tail, '*');
    var j := FirstIndex(pattern, '*');
    assert pattern == [pattern[0]] + tail;
    if i == |tail| {
      assert tail[..i] == tail;
      assert '*' !in pattern;
    } else {
      assert pattern == (([pattern[0]] + tail[..i]) + ['*']) + tail[i + 1..];
      FirstIndexAfter([pattern[0]] + tail[..i], '*', tail[i + 1..]);
      assert pattern[..j] == [pattern[0]] + tail[..i];
      assert pattern[j + 1..] == tail[i + 1..];
    }
  }

  lemma SplitStarStep(pattern: string)
    requires pattern != "" && pattern[0] == '*'
    ensures Split(pattern, '*') == [""] + Split(pattern[1..], '*')
  {
    SplitCons("", '*', pattern[1..]);
    assert pattern == "" + ['*'] + pattern[1..];
  }

  /** The matcher accepts a name exactly when the stars can be filled to spell it. */
  lemma {:induction false} GlobMeaning(pattern: string, name: string)
    ensures Glob(pattern, name) <==> exists fills :: IsFilling(pattern, name, fills)
  {
    if Glob(pattern, name) {
      var fills := GlobFill(pattern, name);
      assert IsFilling(pattern, name, fills);
    }
    if exists fills :: IsFilling(pattern, name, fills) {
      var fills :| IsFilling(pattern, name, fills);
      FillGlob(pattern, name, fills);
    }
  }

  lemma {:induction false} GlobFill(pattern: string, name: string) returns (fills: seq<string>)
    requires Glob(pattern, name)
    ensures IsFilling(pattern, name, fills)
    decreases |pattern| + |name|
  {
    if pattern == "" {
      fills := [];
    } else if pattern[0] == '*' {
      SplitStarStep(pattern);
      var rest := Split(pattern[1..], '*');
      assert ([""] + rest)[1..] == rest;
      if Glob(pattern[1..], name) {
        var inner := GlobFill(pattern[1..], name);
        fills := [""] + inner;
        assert fills[1..] == inner;
      } else {
        var inner := GlobFill(pattern, name[1..]);
        fills := [[name[0]] + inner[0]] + inner[1..];
        assert fills[1..] == inner[1..];
        assert name == [name[0]] + name[1..];
        forall f | f in fills ensures '/' !in f {
          assert inner[0] in inner;
          if f != fills[0] {
            assert f in inner[1..];
          }
        }
      }
    } else {
      SplitLiteralStep(pattern);
      var inner := GlobFill(pattern[1..], name[1..]);
      fills := inner;
      assert name == [name[0]] + name[1..];
      assert Split(pattern, '*')[1..] == Split(pattern[1..], '*')[1..];
    }
  }

  lemma {:induction false} FillGlob(pattern: string, name: string, fills: seq<string>)
    requires IsFilling(pattern, name, fills)
    ensures Glob(pattern, name)
    decreases |pattern| + |name|
  {
    if pattern == "" {
    } else if pattern[0] != '*' {
      LiteralFill(pattern, name, fills);
      FillGlob(pattern[1..], name[1..], fills);
    } else if fills[0] == "" {
      EmptyFill(pattern, name, fills);
      FillGlob(pattern[1..], name, fills[1..]);
    } else {
      var shorter := ShortenFill(pattern, name, fills);
      FillGlob(pattern, name[1..], shorter);
    }
  }

  lemma LiteralFill(pattern: string, name: string, fills: seq<string>)
    requires pattern != "" && pattern[0] != '*' && IsFilling(pattern, name, fills)
    ensures name != "" && name[0] == pattern[0] && IsFilling(pattern[1..], name[1..], fills)
  {
    SplitLiteralStep(pattern);
    var rest := Split(pattern[1..], '*');
    var pieces := [[pattern[0]] + rest[0]] + rest[1..];
    assert pieces[1..] == rest[1..];
    assert Weave(pieces, fills) == [pattern[0]] + Weave(rest, fills);
  }

  lemma EmptyFill(pattern: string, name: string, fills: seq<string>)
    requires pattern != "" && pattern[0] == '*' && IsFilling(pattern, name, fills) && fills[0] == ""
    ensures IsFilling(pattern[1..], name, fills[1..])
  {
    SplitStarStep(pattern);
    var rest := Split(pattern[1..], '*');
    assert ([""] + rest)[1..] == rest;
    assert name == Weave(rest, fills[1..]);
  }

  /** Dropping one character of the first fill drops the first character of the name. */
  lemma ShortenFill(pattern: string, name: string, fills: seq<string>) returns (shorter: seq<string>)
    requires pattern != "" && pattern[0] == '*'
    requires IsFilling(pattern, name, fills) && fills[0] != ""
    ensures name != "" && name[0] != '/' && IsFilling(pattern, name[1..], shorter)
  {
    SplitStarStep(pattern);
    var rest := Split(pattern[1..], '*');
    assert ([""] + rest)[1..] == rest;
    var first, tail := fills[0], fills[1..];
    assert first in fills;
    shorter := [first[1..]] + tail;
    assert shorter[1..] == tail;
    var woven := Weave(rest, tail);
    assert name == first + woven;
    assert name[1..] == first[1..] + woven;
    forall f | f in shorter ensures '/' !in f {
      assert f == first[1..] || f in fills;
    }
  }

  /** A wildcard entry matches its own text, which is how it ends up looking like a vanished namespace. */
  lemma {:induction false} GlobSelf(pattern: string)
    ensures Glob(pattern, pattern)
  {
    if pattern != "" {
      GlobSelf(pattern[1..]);
    }
  }

  lemma {:induction false} GlobLoneStar(name: string)
    ensures Glob("*", name) <==> '/' !in name
  {
    if name != "" {
      assert name == [name[0]] + name[1..];
      assert "*"[1..] == "";
      GlobLoneStar(name[1..]);
    }
  }

  /** `p*` is prefix matching, on names whose remainder has no '/'. */
  lemma {:induction false} GlobPrefixStar(p: string, name: string)
    requires '*' !in p
    ensures Glob(p + "*", name) <==> p <= name && '/' !in name[|p|..]
  {
    if p == "" {
      assert p + "*" == "*";
      assert name[|p|..] == name;
      GlobLoneStar(name);
    } else if name != "" {
      assert (p + "*")[1..] == p[1..] + "*";
      GlobPrefixStar(p[1..], name[1..]);
      if p <= name {
        assert p[1..] <= name[1..] && name[1..][|p| - 1..] == name[|p|..];
      }
      if p[0] == name[0] && p[1..] <= name[1..] {
        assert p == [p[0]] + p[1..] && name == [name[0]] + name[1..];
        assert p <= name && name[1..][|p| - 1..] == name[|p|..];
      }
    }
  }

  /** The literal text before the first star, and the text after it. */
  function Head(pattern: string): string
  {
    pattern[..FirstIndex(pattern, '*')]
  }

  function AfterStar(pattern: string): string
  {
    var i := FirstIndex(pattern, '*');
    if i == |pattern| then "" else pattern[i + 1..]
  }

  lemma HeadOfPrefixStar(p: string)
    requires '*' !in p
    ensures Head(p + "*") == p && AfterStar(p + "*") == ""
  {
    assert p + "*" == p + ['*'] + "";
    FirstIndexAfter(p, '*', "");
  }

  lemma {:induction false} GlobStartsWithHead(pattern: string, name: string)
    requires Glob(pattern, name)
    ensures Head(pattern) <= name
    decreases |pattern|
  {
    if pattern != "" && pattern[0] != '*' {
      GlobStartsWithHead(pattern[1..], name[1..]);
      assert pattern[..FirstIndex(pattern, '*')] == [pattern[0]] + pattern[1..][..FirstIndex(pattern[1..], '*')];
      assert name == [name[0]] + name[1..];
    }
  }

  // ---------- Prefix extraction ----------

  predicate IsSeparator(c: char) { c in "-_." }

  predicate HasSeparator(s: string) { exists i :: 0 <= i < |s| && IsSeparator(s[i]) }

  function Max(a: int, b: int): int { if a < b then b else a }

  /** The last hyphen, underscore or dot of a name; -1 when it has none. */
  function LastSeparator(ns: string): (i: int)
    ensures -1 <= i < |ns|
    ensures i >= 0 ==> IsSeparator(ns[i])
    ensures forall j :: i < j < |ns| ==> !IsSeparator(ns[j])
  {
    Max(LastIndex(ns, '-'), Max(LastIndex(ns, '_'), LastIndex(ns, '.')))
  }

  /** The discovery prefix a known namespace contributes, separator included. */
  function PrefixOf(ns: string): Option<string>
  {
    var i := LastSeparator(ns);
    if '*' !in ns && 0 < i < |ns| - 1 then Some(ns[..i + 1]) else None
  }

  /** The prefix is what ends in the last separator, provided something precedes that and something follows. */
  lemma PrefixMeaning(ns: string, q: string)
    ensures PrefixOf(ns) == Some(q) <==>
            && '*' !in ns && q <= ns && 1 < |q| < |ns| && q[|q| - 1] in "-_."
            && (forall j :: |q| <= j < |ns| ==> ns[j] !in "-_.")
  {
    assert forall c :: IsSeparator(c) <==> c in "-_.";
    var i := LastSeparator(ns);
    if q <= ns && 1 < |q| < |ns| && q[|q| - 1] in "-_." && forall j :: |q| <= j < |ns| ==> ns[j] !in "-_." {
      assert q == ns[..|q|] && IsSeparator(ns[|q| - 1]);
      assert i == |q| - 1;
    }
  }

  function Prefixes(names: seq<string>): set<string>
  {
    set n | n in names && PrefixOf(n).Some? :: PrefixOf(n).value
  }

  lemma PrefixesStep(names: seq<string>, ns: string)
    ensures Prefixes(names + [ns]) == Prefixes(names) + (if PrefixOf(ns).Some? then {PrefixOf(ns).value} else {})
  {
    forall n | n in names + [ns] ensures n in names || n == ns {}
    forall n | n in names ensures n in names + [ns] {}
    assert ns in names + [ns];
  }

  /** extractPrefixesFromNamespaces: the same loop in the healer and in its start-up code. */
  method ExtractPrefixes(names: seq<string>) returns (prefixes: set<string>)
    ensures prefixes == Prefixes(names)
    ensures forall q :: q in prefixes <==> exists n :: n in names && PrefixOf(n) == Some(q)
  {
    prefixes := {};
    for k := 0 to |names|
      invariant prefixes == Prefixes(names[..k])
    {
      var ns := names[k];
      PrefixesStep(names[..k], ns);
      assert names[..k + 1] == names[..k] + [ns];
      if '*' in ns {
        continue;
      }
      var lastHyphen := LastIndex(ns, '-');
      var lastUnderscore := LastIndex(ns, '_');
      var lastDot := LastIndex(ns, '.');
      var lastSeparator := -1;
      if lastHyphen > lastSeparator {
        lastSeparator := lastHyphen;
      }
      if lastUnderscore > lastSeparator {
        lastSeparator := lastUnderscore;
      }
      if lastDot > lastSeparator {
        lastSeparator := lastDot;
      }
      assert lastSeparator == LastSeparator(ns);
      if 0 < lastSeparator < |ns| - 1 {
        prefixes := prefixes + {ns[..lastSeparator + 1]};
      }
    }
    assert names[..|names|] == names;
  }

  lemma PrefixShape(ns: string)
    requires PrefixOf(ns).Some?
    ensures var q := PrefixOf(ns).value;
            q <= ns && 1 < |q| < |ns| && IsSeparator(q[|q| - 1]) && '*' !in q && PrefixOf(q).None?
  {
    var q := PrefixOf(ns).value;
    assert LastSeparator(q) == |q| - 1;
  }

  /**
   A root is kept by extraction exactly when it would yield no prefix itself: then, and only then,
   every prefix extracted from a name that starts with it still starts with it.
   */
  lemma PrefixKeepsRoot(root: string)
    requires '*' !in root
    ensures PrefixOf(root).None? <==>
            forall name :: root <= name && PrefixOf(name).Some? ==> root <= PrefixOf(name).value
  {
    if PrefixOf(root).None? {
      forall name | root <= name && PrefixOf(name).Some? ensures root <= PrefixOf(name).value {
        PrefixExtendsRoot(root, name);
      }
    } else {
      assert root <= root;
    }
  }

  lemma PrefixExtendsRoot(root: string, name: string)
    requires '*' !in root && PrefixOf(root).None?
    requires root <= name && PrefixOf(name).Some?
    ensures root <= PrefixOf(name).value
  {
    var i := LastSeparator(name);
    if i < |root| {
      assert root[i] == name[i];
      assert LastSeparator(root) == i;
    }
  }

  /**
   A pattern leaks when the text before its first star would itself yield a prefix and no separator
   follows: filling the stars with nothing then gives a match whose prefix is shorter than that text.
   */
  predicate Leaky(pattern: string)
  {
    PrefixOf(Head(pattern)).Some? && !HasSeparator(AfterStar(pattern))
  }

  /** The shortest name the pattern matches: every star filled with nothing. */
  function Bare(pattern: string): string
  {
    if pattern == "" then ""
    else if pattern[0] == '*' then Bare(pattern[1..])
    else [pattern[0]] + Bare(pattern[1..])
  }

  lemma {:induction false} BareMatches(pattern: string)
    ensures Glob(pattern, Bare(pattern))
  {
    if pattern != "" {
      BareMatches(pattern[1..]);
      if pattern[0] != '*' {
        assert Bare(pattern)[1..] == Bare(pattern[1..]);
      }
    }
  }

  lemma {:induction false} BareCharacters(pattern: string)
    ensures forall c :: c in Bare(pattern) <==> c in pattern && c != '*'
  {
    if pattern != "" {
      BareCharacters(pattern[1..]);
      assert pattern == [pattern[0]] + pattern[1..];
    }
  }

  lemma {:induction false} BareHead(pattern: string)
    ensures Bare(pattern) == Head(pattern) + Bare(AfterStar(pattern))
  {
    if pattern != "" && pattern[0] != '*' {
      var tail := pattern[1..];
      BareHead(tail);
      assert Head(pattern) == [pattern[0]] + Head(tail);
      assert AfterStar(pattern) == AfterStar(tail);
    }
  }

  /** A name matched by a pattern with a separator after its first star has one beyond the head. */
  lemma {:induction false} SeparatorBeyondHead(pattern: string, name: string)
    requires Glob(pattern, name) && HasSeparator(AfterStar(pattern))
    ensures LastSeparator(name) >= |Head(pattern)|
    decreases |pattern| + |name|
  {
    if pattern[0] != '*' {
      SeparatorBeyondHead(pattern[1..], name[1..]);
      assert FirstIndex(pattern, '*') == 1 + FirstIndex(pattern[1..], '*');
      assert AfterStar(pattern) == AfterStar(pattern[1..]);
      var i := LastSeparator(name[1..]);
      assert IsSeparator(name[i + 1]);
    } else {
      assert AfterStar(pattern) == pattern[1..];
      SeparatorSurvives(pattern, name);
    }
  }

  lemma {:induction false} SeparatorSurvives(pattern: string, name: string)
    requires Glob(pattern, name) && HasSeparator(pattern)
    ensures HasSeparator(name)
    decreases |pattern| + |name|
  {
    var i :| 0 <= i < |pattern| && IsSeparator(pattern[i]);
    if pattern[0] == '*' {
      assert IsSeparator(pattern[1..][i - 1]);
      if Glob(pattern[1..], name) {
        SeparatorSurvives(pattern[1..], name);
      } else {
        SeparatorSurvives(pattern, name[1..]);
        var j :| 0 <= j < |name[1..]| && IsSeparator(name[1..][j]);
        assert IsSeparator(name[j + 1]);
      }
    } else if i == 0 {
      assert IsSeparator(name[0]);
    } else {
      assert IsSeparator(pattern[1..][i - 1]);
      SeparatorSurvives(pattern[1..], name[1..]);
      var j :| 0 <= j < |name[1..]| && IsSeparator(name[1..][j]);
      assert IsSeparator(name[j + 1]);
    }
  }

  /** Prefixes extracted from the matches of a pattern keep its head, unless the pattern leaks. */
  lemma MatchKeepsHead(pattern: string, name: string)
    requires !Leaky(pattern) && Glob(pattern, name) && PrefixOf(name).Some?
    ensures Head(pattern) <= PrefixOf(name).value
  {
    GlobStartsWithHead(pattern, name);
    if PrefixOf(Head(pattern)).None? {
      PrefixExtendsRoot(Head(pattern), name);
    } else {
      SeparatorBeyondHead(pattern, name);
    }
  }

  /** How far a pattern reaches through the prefixes of what it matches: to its head, or, when it leaks, to the prefix of its head. */
  function Reach(pattern: string): string
  {
    if Leaky(pattern) then PrefixOf(Head(pattern)).value else Head(pattern)
  }

  /** Every match of a pattern is within its reach, and so is every prefix extracted from a match. */
  lemma MatchKeepsReach(pattern: string, name: string)
    requires Glob(pattern, name)
    ensures Reach(pattern) <= name && (PrefixOf(name).Some? ==> Reach(pattern) <= PrefixOf(name).value)
  {
    GlobStartsWithHead(pattern, name);
    if Leaky(pattern) {
      PrefixShape(Head(pattern));
      if PrefixOf(name).Some? {
        PrefixExtendsRoot(Reach(pattern), name);
      }
    } else if PrefixOf(name).Some? {
      MatchKeepsHead(pattern, name);
    }
  }

  /** A leaky pattern has a match whose prefix is strictly shorter than the head. */
  lemma LeakyEscapes(pattern: string)
    requires Leaky(pattern)
    ensures '*' !in Bare(pattern)
    ensures var m := Bare(pattern);
            Glob(pattern, m) && PrefixOf(m) == PrefixOf(Head(pattern)) && |PrefixOf(m).value| < |Head(pattern)|
  {
    BareMatches(pattern);
    BareHead(pattern);
    var head, tail := Head(pattern), Bare(AfterStar(pattern));
    BareCharacters(AfterStar(pattern));
    forall j | 0 <= j < |tail| ensures !IsSeparator(tail[j]) {
      assert tail[j] in AfterStar(pattern);
    }
    LastSeparatorOfHead(head, tail);
  }

  lemma LastSeparatorOfHead(head: string, tail: string)
    requires LastSeparator(head) >= 0
    requires forall j :: 0 <= j < |tail| ==> !IsSeparator(tail[j])
    ensures LastSeparator(head + tail) == LastSeparator(head)
    ensures (head + tail)[..LastSeparator(head) + 1] == head[..LastSeparator(head) + 1]
  {
    var i, all := LastSeparator(head), head + tail;
    assert all[i] == head[i];
    forall j | i < j < |all| ensures !IsSeparator(all[j]) {
      assert all[j] == if j < |head| then head[j] else tail[j - |head|];
    }
  }

  // ---------- Matching against a set of patterns and prefixes ----------

  predicate MatchesPattern(patterns: seq<string>, name: string)
  {
    exists p :: p in patterns && Glob(p, name)
  }

  predicate MatchesPrefix(prefixes: set<string>, name: string)
  {
    exists q :: q in prefixes && q <= name
  }

  /** The loop over the patterns, with its early exit. */
  method SomePatternMatches(patterns: seq<string>, name: string) returns (hit: bool)
    ensures hit == MatchesPattern(patterns, name)
  {
    for k := 0 to |patterns|
      invariant !MatchesPattern(patterns[..k], name)
    {
      assert patterns[..k + 1] == patterns[..k] + [patterns[k]];
      if Glob(patterns[k], name) {
        assert patterns[k] in patterns;
        return true;
      }
    }
    assert patterns[..|patterns|] == patterns;
    return false;
  }

  /** The loop over the prefixes, in whatever order the map yields them. */
  method SomePrefixMatches(prefixes: set<string>, name: string) returns (hit: bool)
    ensures hit == MatchesPrefix(prefixes, name)
  {
    var rest := prefixes;
    while rest != {}
      invariant rest <= prefixes
      invariant forall q :: q in prefixes && q !in rest ==> !(q <= name)
    {
      var q :| q in rest;
      if q <= name {
        return true;
      }
      rest := rest - {q};
    }
    return false;
  }

  predicate MatchesAny(patterns: seq<string>, prefixes: set<string>, name: string)
  {
    MatchesPattern(patterns, name) || MatchesPrefix(prefixes, name)
  }

  /** A cluster name: Kubernetes allows neither '/' nor '*' in it. */
  predicate Clean(name: string)
  {
    '*' !in name && '/' !in name
  }
}
