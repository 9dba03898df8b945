/**
 Laws of glob patterns: how they compose, when one accepts all that another stands for, and when a
 pattern covers every prefix that its own matches contribute.
 */
module PatternAlgebra {
  import opened Text
  import opened Matching

  // ---------- Composition ----------

  /** A match of two patterns in a row is a match of the first followed by a match of the second. */
  lemma {:induction false} GlobSplit(p: string, s: string, name: string) returns (i: nat)
    requires Glob(p + s, name)
    ensures i <= |name| && Glob(p, name[..i]) && Glob(s, name[i..])
    decreases |p| + |name|
  {
    if p == "" {
      assert p + s == s;
      i := 0;
    } else {
      assert (p + s)[1..] == p[1..] + s;
      if p[0] == '*' && Glob(p[1..] + s, name) {
        i := GlobSplit(p[1..], s, name);
      } else {
        i := GlobSplit(if p[0] == '*' then p else p[1..], s, name[1..]);
        i := i + 1;
        assert name[..i][1..] == name[1..][..i - 1] && name[i..] == name[1..][i - 1..];
      }
    }
  }

  lemma {:induction false} GlobJoin(p: string, s: string, a: string, b: string)
    requires Glob(p, a) && Glob(s, b)
    ensures Glob(p + s, a + b)
    decreases |p| + |a|
  {
    if p == "" {
      assert p + s == s && a + b == b;
    } else {
      assert (p + s)[1..] == p[1..] + s;
      if p[0] == '*' && Glob(p[1..], a) {
        GlobJoin(p[1..], s, a, b);
      } else {
        GlobJoin(if p[0] == '*' then p else p[1..], s, a[1..], b);
        assert (a + b)[1..] == a[1..] + b;
      }
    }
  }

  /** Accepting is transitive: a pattern that accepts another as a text accepts whatever that one stands for. */
  lemma {:induction false} GlobIsTransitive(v: string, w: string, n: string)
    requires Glob(v, w) && Glob(w, n)
    ensures Glob(v, n)
    decreases |v| + |w| + |n|
  {
    if v == "" {
    } else if v[0] != '*' {
      GlobIsTransitive(v[1..], w[1..], n[1..]);
    } else if Glob(v[1..], w) {
      GlobIsTransitive(v[1..], w, n);
    } else if w[0] == '*' && Glob(w[1..], n) {
      GlobIsTransitive(v, w[1..], n);
    } else {
      GlobIsTransitive(v, if w[0] == '*' then w else w[1..], n[1..]);
    }
  }

  /** The pattern with every star replaced by this character. */
  function StarsAs(pattern: string, c: char): string
  {
    if pattern == "" then ""
    else [if pattern[0] == '*' then c else pattern[0]] + StarsAs(pattern[1..], c)
  }

  lemma {:induction false} StarsAsMatches(pattern: string, c: char)
    requires c != '/'
    ensures Glob(pattern, StarsAs(pattern, c))
  {
    if pattern != "" {
      var n := StarsAs(pattern, c);
      StarsAsMatches(pattern[1..], c);
      assert n[1..] == StarsAs(pattern[1..], c);
      if pattern[0] == '*' {
        assert Glob(pattern, n[1..]);
      }
    }
  }

  lemma {:induction false} StarsAsIsClean(pattern: string, c: char)
    requires c != '/' && c != '*' && '/' !in pattern
    ensures Clean(StarsAs(pattern, c))
  {
    if pattern != "" {
      StarsAsIsClean(pattern[1..], c);
    }
  }

  /** What a pattern accepts with a character it does not know, it accepts with a star in its place. */
  lemma {:induction false} UnknownIsStar(v: string, w: string, c: char)
    requires c !in v && c != '/' && c != '*' && Glob(v, StarsAs(w, c))
    ensures Glob(v, w)
    decreases |v| + |w|
  {
    if v != "" {
      assert forall d :: d in v[1..] ==> d in v;
      if v[0] == '*' && Glob(v[1..], StarsAs(w, c)) {
        UnknownIsStar(v[1..], w, c);
      } else {
        assert StarsAs(w, c)[1..] == StarsAs(w[1..], c);
        UnknownIsStar(if v[0] == '*' then v else v[1..], w[1..], c);
      }
    }
  }

  /**
   A pattern accepts every cluster name that another stands for if and only if it accepts that other
   one as a text, provided there is some character it does not mention.
   */
  lemma AcceptsAllIff(v: string, w: string, c: char)
    requires c !in v && c != '/' && c != '*' && '/' !in w
    ensures (forall n :: Clean(n) && Glob(w, n) ==> Glob(v, n)) <==> Glob(v, w)
  {
    if Glob(v, w) {
      forall n | Clean(n) && Glob(w, n) ensures Glob(v, n) {
        GlobIsTransitive(v, w, n);
      }
    }
    if forall n :: Clean(n) && Glob(w, n) ==> Glob(v, n) {
      StarsAsMatches(w, c);
      StarsAsIsClean(w, c);
      assert Glob(v, StarsAs(w, c));
      UnknownIsStar(v, w, c);
    }
  }

  // ---------- Counting ----------

  /** The literal characters of a pattern all occur in what it matches. */
  lemma {:induction false} GlobCounts(pattern: string, name: string, c: char)
    requires Glob(pattern, name) && c != '*'
    ensures multiset(pattern)[c] <= multiset(name)[c]
    decreases |pattern| + |name|
  {
    if pattern != "" {
      assert pattern == [pattern[0]] + pattern[1..];
      if pattern[0] == '*' && Glob(pattern[1..], name) {
        GlobCounts(pattern[1..], name, c);
      } else {
        assert name == [name[0]] + name[1..];
        GlobCounts(if pattern[0] == '*' then pattern else pattern[1..], name[1..], c);
      }
    }
  }

  /** A pattern with a slash matches no cluster name. */
  lemma SlashNeverMatches(pattern: string, name: string)
    requires Glob(pattern, name) && '/' !in name
    ensures '/' !in pattern
  {
    GlobCounts(pattern, name, '/');
    assert '/' in pattern <==> '/' in multiset(pattern);
    assert '/' in name <==> '/' in multiset(name);
  }

  lemma {:induction false} BareCounts(pattern: string, c: char)
    requires c != '*'
    ensures multiset(Bare(pattern))[c] == multiset(pattern)[c]
  {
    if pattern != "" {
      assert pattern == [pattern[0]] + pattern[1..];
      BareCounts(pattern[1..], c);
    }
  }

  // ---------- Trailing stars ----------

  /** The pattern without its trailing stars. */
  function Trunk(pattern: string): (u: string)
    ensures u != "" ==> u[|u| - 1] != '*'
    ensures |u| <= |pattern| && u == pattern[..|u|]
  {
    if pattern != "" && pattern[|pattern| - 1] == '*' then Trunk(pattern[..|pattern| - 1]) else pattern
  }

  predicate AllStars(s: string)
  {
    forall c :: c in s ==> c == '*'
  }

  lemma {:induction false} TrunkAndStars(pattern: string)
    ensures pattern == Trunk(pattern) + pattern[|Trunk(pattern)|..] && AllStars(pattern[|Trunk(pattern)|..])
  {
    if pattern != "" && pattern[|pattern| - 1] == '*' {
      var init := pattern[..|pattern| - 1];
      TrunkAndStars(init);
      assert pattern == init + ['*'];
      assert pattern[|Trunk(pattern)|..] == init[|Trunk(pattern)|..] + ['*'];
    }
  }

  lemma {:induction false} StarsMatch(stars: string, name: string)
    requires AllStars(stars) && stars != ""
    ensures Glob(stars, name) <==> '/' !in name
    decreases |stars| + |name|
  {
    assert stars[0] in stars;
    assert forall c :: c in stars[1..] ==> c in stars;
    if name != "" {
      assert name == [name[0]] + name[1..];
      StarsMatch(stars, name[1..]);
    }
    if |stars| > 1 {
      StarsMatch(stars[1..], name);
    }
  }

  // ---------- Patterns that cover what their matches contribute ----------

  /**
   No match of a steady pattern contributes a prefix that covers anything the pattern does not: up to
   its trailing stars it ends in a separator, or it has no other star and yields no prefix.
   */
  predicate Steady(pattern: string)
  {
    var u := Trunk(pattern);
    || '/' in pattern
    || (u != "" && IsSeparator(u[|u| - 1]))
    || ('*' !in u && PrefixOf(u).None?)
  }

  ghost predicate CoversItsPrefixes(pattern: string)
  {
    forall m, n :: Contributes(pattern, m, n) ==> Glob(pattern, n)
  }

  /** The name `n` lies under the prefix that the match `m` contributes. */
  predicate Contributes(pattern: string, m: string, n: string)
  {
    Glob(pattern, m) && Clean(m) && Clean(n) && PrefixOf(m).Some? && PrefixOf(m).value <= n
  }

  lemma CoversIffSteady(pattern: string)
    ensures CoversItsPrefixes(pattern) <==> Steady(pattern)
  {
    if Steady(pattern) {
      forall m, n | Contributes(pattern, m, n) ensures Glob(pattern, n) {
        SteadyCovers(pattern, m, n);
      }
    } else {
      var m, n := Uncovered(pattern);
      assert Contributes(pattern, m, n) && !Glob(pattern, n);
    }
  }

  lemma SteadyCovers(pattern: string, m: string, n: string)
    requires Steady(pattern) && Glob(pattern, m) && '/' !in m && PrefixOf(m).Some?
    requires PrefixOf(m).value <= n && '/' !in n
    ensures Glob(pattern, n)
  {
    SlashNeverMatches(pattern, m);
    TrunkAndStars(pattern);
    var u := Trunk(pattern);
    var i := GlobSplit(u, pattern[|u|..], m);
    TrunkWithinPrefix(u, m, i);
    PrefixShape(m);
    GrowMatch(u, pattern[|u|..], m, i, PrefixOf(m).value, n);
  }

  /** What trailing stars match may be replaced, as long as something was left to them. */
  lemma GrowMatch(u: string, stars: string, m: string, i: nat, q: string, n: string)
    requires i <= |m| && Glob(u, m[..i]) && Glob(stars, m[i..]) && AllStars(stars)
    requires m[..i] <= q < m && q <= n && '/' !in n
    ensures Glob(u + stars, n)
  {
    assert |m[i..]| > 0;
    assert stars != "";
    assert n[..i] == m[..i];
    StarsMatch(stars, n[i..]);
    GlobJoin(u, stars, n[..i], n[i..]);
    assert n[..i] + n[i..] == n;
  }

  lemma TrunkWithinPrefix(u: string, m: string, i: nat)
    requires (u != "" && IsSeparator(u[|u| - 1])) || ('*' !in u && PrefixOf(u).None?)
    requires i <= |m| && Glob(u, m[..i]) && PrefixOf(m).Some? && (u != "" ==> u[|u| - 1] != '*')
    ensures m[..i] <= PrefixOf(m).value
  {
    if u != "" && IsSeparator(u[|u| - 1]) {
      EndsAlike(u, m[..i]);
      assert IsSeparator(m[i - 1]);
    } else {
      LiteralMatch(u, m[..i]);
      PrefixExtendsRoot(u, m);
    }
  }

  lemma {:induction false} EndsAlike(u: string, name: string)
    requires u != "" && u[|u| - 1] != '*' && Glob(u, name)
    ensures name != "" && name[|name| - 1] == u[|u| - 1]
  {
    var init, last := u[..|u| - 1], [u[|u| - 1]];
    assert u == init + last;
    var i := GlobSplit(init, last, name);
    LiteralMatch(last, name[i..]);
  }

  lemma {:induction false} LiteralMatch(u: string, name: string)
    requires '*' !in u
    ensures Glob(u, name) <==> u == name
  {
    if u != "" && name != "" {
      assert u == [u[0]] + u[1..] && name == [name[0]] + name[1..];
      LiteralMatch(u[1..], name[1..]);
    }
  }

  /** A match that has no more of the trunk's last character than the pattern itself, and a prefix cut short of it. */
  lemma Uncovered(pattern: string) returns (m: string, n: string)
    requires !Steady(pattern)
    ensures Contributes(pattern, m, n) && !Glob(pattern, n) && m != n && n != "" && m != ""
  {
    var u := Trunk(pattern);
    var c := u[|u| - 1];
    m := Tight(pattern);
    var q, y := PrefixOf(m).value, Other(c);
    PrefixShape(m);
    n := q + [y];
    CutShort(m, |q|, c, y);
    if Glob(pattern, n) {
      GlobCounts(pattern, n, c);
    }
    assert m[..|q|] == q;
    forall x | x in n ensures x in m || x == y {}
  }

  function Other(c: char): (d: char)
    ensures d != c && d != '/' && d != '*' && !IsSeparator(d)
  {
    if c == 'x' then 'y' else 'x'
  }

  /** A prefix that ends before the last occurrence of a character, with another one appended, has fewer of it. */
  lemma CutShort(m: string, k: nat, c: char, y: char)
    requires k < |m| && m[|m| - 1] == c && y != c
    ensures multiset(m[..k] + [y])[c] < multiset(m)[c]
  {
    var between := m[k..|m| - 1];
    assert m == m[..k] + between + [c];
  }

  /** A match that contributes a prefix, ends in the trunk's last character, and has it no more often than the pattern. */
  lemma Tight(pattern: string) returns (m: string)
    requires !Steady(pattern)
    ensures Glob(pattern, m) && Clean(m) && PrefixOf(m).Some? && m != ""
    ensures var u := Trunk(pattern); u != "" && m[|m| - 1] == u[|u| - 1] && multiset(m)[u[|u| - 1]] == multiset(pattern)[u[|u| - 1]]
  {
    var u := Trunk(pattern);
    var c, stars := u[|u| - 1], pattern[|u|..];
    TrunkAndStars(pattern);
    assert c !in stars;
    assert multiset(pattern)[c] == multiset(u)[c];
    m := TightTrunk(u, c);
    GlobNothing(stars);
    GlobJoin(u, stars, m, "");
    assert u + stars == pattern && m + "" == m;
    assert forall d :: d in u ==> d in pattern;
  }

  lemma {:induction false} GlobNothing(stars: string)
    requires AllStars(stars)
    ensures Glob(stars, "")
  {
    if stars != "" {
      StarsMatch(stars, "");
    }
  }

  lemma TightTrunk(u: string, c: char) returns (m: string)
    requires u != "" && u[|u| - 1] == c && c != '*' && !IsSeparator(c) && ('*' in u || PrefixOf(u).Some?)
    ensures Glob(u, m) && '*' !in m && PrefixOf(m).Some? && m != "" && m[|m| - 1] == c
    ensures multiset(m)[c] == multiset(u)[c] && forall d :: d in m ==> d in u || d == '-' || d == Other(c)
  {
    if '*' in u {
      var j := LastIndex(u, '*');
      var w, t := u[..j], u[j + 1..];
      assert u == w + ("*" + t);
      assert t[|t| - 1] == u[|u| - 1];
      m := FillStar(w, t, c);
    } else {
      LiteralMatch(u, u);
      m := u;
    }
  }

  /** All stars filled with nothing but the last, which is filled with a letter and a separator. */
  lemma FillStar(w: string, t: string, c: char) returns (m: string)
    requires t != "" && t[|t| - 1] == c && '*' !in t && !IsSeparator(c)
    ensures var u := w + ("*" + t);
            && Glob(u, m) && multiset(m)[c] == multiset(u)[c]
            && forall d :: d in m ==> d in u || d == '-' || d == Other(c)
    ensures '*' !in m && PrefixOf(m).Some? && m != "" && m[|m| - 1] == c
  {
    var fill := [Other(c), '-'];
    m := Bare(w) + (fill + t);
    FilledMatches(w, t, fill);
    FilledCounts(w, t, fill, c);
    FilledCharacters(w, t, fill);
    FilledPrefix(w, t, c);
  }

  lemma FilledPrefix(w: string, t: string, c: char)
    requires t != "" && t[|t| - 1] == c && '*' !in t && !IsSeparator(c)
    ensures var m := Bare(w) + ([Other(c), '-'] + t);
            '*' !in m && PrefixOf(m).Some? && m != "" && m[|m| - 1] == c
  {
    BareCharacters(w);
    LateSeparator(Bare(w) + [Other(c)], t);
    assert Bare(w) + ([Other(c), '-'] + t) == Bare(w) + [Other(c)] + ['-'] + t;
  }

  lemma FilledCharacters(w: string, t: string, fill: string)
    ensures forall d :: d in Bare(w) + (fill + t) ==> (d in w && d != '*') || d in fill || d in t
  {
    BareCharacters(w);
  }

  lemma FilledMatches(w: string, t: string, fill: string)
    requires '*' !in t && '/' !in fill
    ensures Glob(w + ("*" + t), Bare(w) + (fill + t))
  {
    BareMatches(w);
    GlobLoneStar(fill);
    LiteralMatch(t, t);
    GlobJoin("*", t, fill, t);
    GlobJoin(w, "*" + t, Bare(w), fill + t);
  }

  lemma FilledCounts(w: string, t: string, fill: string, c: char)
    requires c != '*' && c !in fill
    ensures multiset(Bare(w) + (fill + t))[c] == multiset(w + ("*" + t))[c]
  {
    BareCounts(w, c);
    assert multiset(fill)[c] == 0 && multiset("*")[c] == 0;
  }

  lemma LateSeparator(a: string, t: string)
    requires a != "" && t != "" && !IsSeparator(t[|t| - 1]) && '*' !in a && '*' !in t
    ensures PrefixOf(a + ['-'] + t).Some?
  {
    var m := a + ['-'] + t;
    assert m[|a|] == '-' && IsSeparator(m[|a|]) && m[|m| - 1] == t[|t| - 1];
    assert LastSeparator(m) >= |a|;
  }
}
