/**
 The text form of a custom resource type, `resource.group/version`: one printer, and two parsers
 that split on the dot and on the slash in opposite orders.
 */
module CrdSpec {
  import opened Text

  datatype Gvr = Gvr(group: string, version: string, resource: string)

  const DEFAULT_VERSION := "v1"

  /** RecordCRDCleanup's key, which is also the form the flags use. */
  function Print(gvr: Gvr): string
  {
    gvr.resource + "." + gvr.group + "/" + gvr.version
  }

  /** The parser of watchCRDResource and RunFullCRDCleanup: slash first. */
  function ParseSlashFirst(s: string): Option<Gvr>
  {
    var parts := Split(s, '/');
    var version := if |parts| > 1 then parts[1] else "";
    var resourceParts := Split(parts[0], '.');
    if |resourceParts| < 2 then None
    else Some(Gvr(Join(resourceParts[1..], '.'), if version == "" then DEFAULT_VERSION else version, resourceParts[0]))
  }

  /** The parser of Warmup: dot first. */
  function ParseDotFirst(s: string): Option<Gvr>
  {
    var parts := Split(s, '.');
    if |parts| < 2 then None
    else
      var gvParts := Split(Join(parts[1..], '.'), '/');
      Some(Gvr(gvParts[0], if |gvParts| > 1 then gvParts[1] else DEFAULT_VERSION, parts[0]))
  }

  predicate Printable(gvr: Gvr)
  {
    && '.' !in gvr.resource && '/' !in gvr.resource
    && '/' !in gvr.group
    && '/' !in gvr.version && gvr.version != ""
  }

  /** The text up to the first dot, and everything after it. */
  lemma CutAtDot(s: string, resource: string, rest: string)
    requires s == resource + ['.'] + rest && '.' !in resource
    ensures Split(s, '.') == [resource] + Split(rest, '.')
    ensures Join(Split(s, '.')[1..], '.') == rest
  {
    SplitCons(resource, '.', rest);
    JoinSplit(rest, '.');
    assert Split(s, '.')[1..] == Split(rest, '.');
  }

  lemma CutAtSlash(s: string, left: string, rest: string)
    requires s == left + ['/'] + rest && '/' !in left
    ensures Split(s, '/') == [left] + Split(rest, '/')
  {
    SplitCons(left, '/', rest);
  }

  lemma SlashFirstOf(s: string, left: string, tail: string, resource: string, group: string)
    requires s == left + ['/'] + tail && '/' !in left
    requires left == resource + ['.'] + group && '.' !in resource
    ensures var version := Split(tail, '/')[0];
            ParseSlashFirst(s) == Some(Gvr(group, if version == "" then DEFAULT_VERSION else version, resource))
    ensures EmptyVersion(s) <==> Split(tail, '/')[0] == ""
  {
    CutAtSlash(s, left, tail);
    CutAtDot(left, resource, group);
  }

  lemma DotFirstOf(s: string, resource: string, right: string, group: string, tail: string)
    requires s == resource + ['.'] + right && '.' !in resource
    requires right == group + ['/'] + tail && '/' !in group
    ensures ParseDotFirst(s) == Some(Gvr(group, Split(tail, '/')[0], resource))
  {
    CutAtDot(s, resource, right);
    CutAtSlash(right, group, tail);
  }

  lemma Regroup(resource: string, group: string, tail: string)
    ensures resource + ['.'] + group + ['/'] + tail == resource + ['.'] + (group + ['/'] + tail)
  {
  }

  /** A dot, then a slash: both parsers accept, and differ at most on an empty version, for which the one takes the default. */
  lemma DotThenSlash(s: string, resource: string, group: string, tail: string)
    requires s == resource + ['.'] + group + ['/'] + tail
    requires '.' !in resource && '/' !in resource && '/' !in group
    ensures var version := Split(tail, '/')[0];
            && ParseSlashFirst(s) == Some(Gvr(group, if version == "" then "v1" else version, resource))
            && ParseDotFirst(s) == Some(Gvr(group, version, resource))
            && (EmptyVersion(s) <==> version == "")
  {
    SlashFirstOf(s, resource + ['.'] + group, tail, resource, group);
    Regroup(resource, group, tail);
    DotFirstOf(s, resource, group + ['/'] + tail, group, tail);
  }

  /** Both parsers undo the printer. */
  lemma RoundTrip(gvr: Gvr)
    requires Printable(gvr)
    ensures Print(gvr) == gvr.resource + "." + gvr.group + "/" + gvr.version
    ensures ParseSlashFirst(Print(gvr)) == Some(gvr)
    ensures ParseDotFirst(Print(gvr)) == Some(gvr)
  {
    SplitAtom(gvr.version, '/');
    DotThenSlash(Print(gvr), gvr.resource, gvr.group, gvr.version);
  }

  /** So two types share a counter only when they are the same type. */
  lemma PrintIsInjective(a: Gvr, b: Gvr)
    requires Printable(a) && Printable(b) && Print(a) == Print(b)
    ensures a == b
  {
    RoundTrip(a);
    RoundTrip(b);
  }

  /** A slash is present with nothing between it and the next one (or the end). */
  predicate EmptyVersion(s: string)
  {
    |Split(s, '/')| > 1 && Split(s, '/')[1] == ""
  }

  /** Without a dot both parsers reject. */
  lemma Undotted(s: string)
    requires '.' !in s
    ensures ParseSlashFirst(s) == None && ParseDotFirst(s) == None
  {
    SplitAtom(s, '.');
    var i := FirstIndex(s, '/');
    if i == |s| {
      assert s[..i] == s;
    }
    SplitAtom(Split(s, '/')[0], '.');
  }

  /** A dot and no slash: both parsers take the default version. */
  lemma DottedOnly(resource: string, rest: string)
    requires '.' !in resource && '/' !in resource && '/' !in rest
    ensures var s := resource + ['.'] + rest;
            ParseSlashFirst(s) == ParseDotFirst(s) == Some(Gvr(rest, "v1", resource)) && !EmptyVersion(s)
  {
    var s := resource + ['.'] + rest;
    SplitAtom(s, '/');
    CutAtDot(s, resource, rest);
    SplitAtom(rest, '/');
  }

  /** A slash before the first dot: only the dot-first parser accepts. */
  lemma SlashThenDot(left: string, tail: string)
    requires '.' !in left && '/' !in left && '.' in tail
    ensures var s := left + ['/'] + tail;
            ParseSlashFirst(s).None? && ParseDotFirst(s).Some?
  {
    var s := left + ['/'] + tail;
    CutAtSlash(s, left, tail);
    SplitAtom(left, '.');
    var j := FirstIndex(s, '.');
    assert s[|left| + 1 + FirstIndex(tail, '.')] == '.';
    CutAt(s, j);
    CutAtDot(s, s[..j], s[j + 1..]);
  }

  /**
   The two parsers agree on exactly these strings: those without a dot, which both reject, and those
   whose first dot precedes any slash and whose version, if there is a slash, is not empty.
   */
  lemma ParsersAgreeIff(s: string)
    ensures ParseSlashFirst(s) == ParseDotFirst(s) <==>
            '.' !in s || (FirstIndex(s, '.') < FirstIndex(s, '/') && !EmptyVersion(s))
  {
    if '.' !in s {
      Undotted(s);
    } else if FirstIndex(s, '.') < FirstIndex(s, '/') {
      DotFirstCase(s);
    } else {
      SlashFirstCase(s);
    }
  }

  lemma DotFirstCase(s: string)
    requires FirstIndex(s, '.') < FirstIndex(s, '/')
    ensures ParseSlashFirst(s) == ParseDotFirst(s) <==> !EmptyVersion(s)
  {
    var d, k := FirstIndex(s, '.'), FirstIndex(s, '/');
    var resource, rest := s[..d], s[d + 1..];
    CutAt(s, d);
    if k == |s| {
      DottedOnly(resource, rest);
    } else {
      CutTwice(s, d, k);
      DotThenSlash(s, resource, s[d + 1..k], s[k + 1..]);
    }
  }

  lemma CutTwice(s: string, d: nat, k: nat)
    requires d < k < |s| && s[d] == '.' && s[k] == '/'
    ensures s == s[..d] + ['.'] + s[d + 1..k] + ['/'] + s[k + 1..]
  {
  }

  lemma SlashFirstCase(s: string)
    requires '.' in s && FirstIndex(s, '/') <= FirstIndex(s, '.')
    ensures ParseSlashFirst(s) != ParseDotFirst(s)
  {
    var k := FirstIndex(s, '/');
    CutAt(s, k);
    DottedAfter(s, k);
    SlashThenDot(s[..k], s[k + 1..]);
  }

  lemma DottedAfter(s: string, k: nat)
    requires k < |s| && s[k] == '/' && '.' in s && k <= FirstIndex(s, '.')
    ensures '.' in s[k + 1..]
  {
    var d := FirstIndex(s, '.');
    assert s[k + 1..][d - k - 1] == '.';
  }
}
