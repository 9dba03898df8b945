/** The string operations of Go's `strings` package that the healer relies on. */
module Text {

  datatype Option<+T> = None | Some(value: T)

  /** `strings.LastIndex` for a one-character needle. */
  function LastIndex(s: string, c: char): (i: int)
    ensures -1 <= i < |s|
    ensures i >= 0 ==> s[i] == c
    ensures forall j :: i < j < |s| ==> s[j] != c
  {
    if s == "" then -1
    else if s[|s| - 1] == c then |s| - 1
    else LastIndex(s[..|s| - 1], c)
  }

  /** The position of the first `c`, or `|s|` when there is none. */
  function FirstIndex(s: string, c: char): (i: nat)
    ensures i <= |s|
    ensures i < |s| ==> s[i] == c
    ensures forall j :: 0 <= j < i ==> s[j] != c
  {
    if s == "" then 0
    else if s[0] == c then 0
    else 1 + FirstIndex(s[1..], c)
  }

  lemma FirstIndexAfter(a: string, c: char, b: string)
    requires c !in a
    ensures FirstIndex(a + [c] + b, c) == |a|
  {
    var s := a + [c] + b;
    assert s[|a|] == c;
    assert forall j :: 0 <= j < |a| ==> s[j] == a[j];
  }

  /** `strings.Split` for a one-character separator: never empty, `Split("", c) == [""]`. */
  function Split(s: string, c: char): (parts: seq<string>)
    ensures |parts| >= 1
    decreases |s|
  {
    var i := FirstIndex(s, c);
    if i == |s| then [s] else [s[..i]] + Split(s[i + 1..], c)
  }

  /** `strings.Join` for a one-character separator. */
  function Join(parts: seq<string>, c: char): string
  {
    if parts == [] then ""
    else if |parts| == 1 then parts[0]
    else parts[0] + [c] + Join(parts[1..], c)
  }

  lemma SplitAtom(s: string, c: char)
    requires c !in s
    ensures Split(s, c) == [s]
  {
  }

  lemma SplitCons(a: string, c: char, b: string)
    requires c !in a
    ensures Split(a + [c] + b, c) == [a] + Split(b, c)
  {
    FirstIndexAfter(a, c, b);
    var s := a + [c] + b;
    assert s[..|a|] == a && s[|a| + 1..] == b;
  }

  /** Joining undoes splitting. */
  lemma {:induction false} JoinSplit(s: string, c: char)
    ensures Join(Split(s, c), c) == s
    decreases |s|
  {
    var i := FirstIndex(s, c);
    if i == |s| {
      assert Split(s, c) == [s];
    } else {
      JoinSplit(s[i + 1..], c);
      JoinCons(s[..i], Split(s[i + 1..], c), c);
      CutAt(s, i);
    }
  }

  lemma CutAt(s: string, i: nat)
    requires i < |s|
    ensures s == s[..i] + [s[i]] + s[i + 1..]
  {
  }

  lemma JoinCons(part: string, rest: seq<string>, c: char)
    requires rest != []
    ensures Join([part] + rest, c) == part + [c] + Join(rest, c)
  {
    assert ([part] + rest)[1..] == rest;
  }

  /** Splitting undoes joining, provided no part holds the separator. */
  lemma {:induction false} SplitJoin(parts: seq<string>, c: char)
    requires parts != []
    requires forall part :: part in parts ==> c !in part
    ensures Split(Join(parts, c), c) == parts
  {
    if |parts| == 1 {
      SplitAtom(parts[0], c);
    } else {
      SplitJoin(parts[1..], c);
      SplitCons(parts[0], c, Join(parts[1..], c));
      assert parts == [parts[0]] + parts[1..];
    }
  }

  /** `strings.Contains`. */
  predicate Contains(s: string, sub: string)
  {
    exists i :: 0 <= i <= |s| && sub <= s[i..]
  }

  /** The text occurs somewhere. */
  lemma ContainsMeaning(s: string, sub: string)
    ensures Contains(s, sub) <==> exists before, after :: s == before + sub + after
  {
    if Contains(s, sub) {
      var i :| 0 <= i <= |s| && sub <= s[i..];
      assert s == s[..i] + sub + s[i..][|sub|..];
    }
    if before, after :| s == before + sub + after {
      assert s[|before|..] == sub + after;
    }
  }

  /** Unicode white space within Latin-1, as `strings.TrimSpace` removes it. */
  predicate IsSpace(c: char)
  {
    c in " \t\n\r" || c as int in {0x0B, 0x0C, 0x85, 0xA0}
  }

  /** `strings.TrimSpace`. */
  function TrimSpace(s: string): (t: string)
    ensures t == "" || (!IsSpace(t[0]) && !IsSpace(t[|t| - 1]))
    ensures forall c :: c in t ==> c in s
    decreases |s|
  {
    if s == "" then ""
    else if IsSpace(s[0]) then TrimSpace(s[1..])
    else if IsSpace(s[|s| - 1]) then TrimSpace(s[..|s| - 1])
    else s
  }

  /** Trimming cuts white space off both ends and nothing else. */
  lemma {:induction false} TrimSpaceMeaning(s: string) returns (left: string, right: string)
    ensures s == left + TrimSpace(s) + right
    ensures forall c :: c in left || c in right ==> c as int in {9, 10, 11, 12, 13, 32, 0x85, 0xA0}
    ensures var t := TrimSpace(s);
            t == "" || (t[0] as int !in {9, 10, 11, 12, 13, 32, 0x85, 0xA0} && t[|t| - 1] as int !in {9, 10, 11, 12, 13, 32, 0x85, 0xA0})
    decreases |s|
  {
    SpaceCodes();
    left, right := "", "";
    if s != "" && IsSpace(s[0]) {
      left, right := TrimSpaceMeaning(s[1..]);
      Regroup([s[0]], left, TrimSpace(s[1..]), right);
      left := [s[0]] + left;
    } else if s != "" && IsSpace(s[|s| - 1]) {
      left, right := TrimSpaceMeaning(s[..|s| - 1]);
      Regroup(left, TrimSpace(s[..|s| - 1]), right, [s[|s| - 1]]);
      right := right + [s[|s| - 1]];
    }
  }

  lemma SpaceCodes()
    ensures forall c :: IsSpace(c) <==> c as int in {9, 10, 11, 12, 13, 32, 0x85, 0xA0}
  {
    assert forall c :: IsSpace(c) <==> c in " \t\n\r" || c as int in {0x0B, 0x0C, 0x85, 0xA0};
  }

  lemma Regroup(a: string, b: string, c: string, d: string)
    ensures a + (b + c + d) == (a + b) + c + d
    ensures (a + b + c) + d == a + b + (c + d)
  {
  }

  /** The elements of a list, as a set. */
  function Elements<T(==)>(xs: seq<T>): set<T>
  {
    set x | x in xs
  }

  lemma NoElements<T>(xs: seq<T>)
    ensures Elements(xs) == {} <==> xs == []
  {
    if xs != [] {
      assert xs[0] in Elements(xs);
    }
  }

  /** The order of Go's string comparison. */
  predicate UpTo(a: string, b: string)
  {
    a == "" || (b != "" && (a[0] < b[0] || (a[0] == b[0] && UpTo(a[1..], b[1..]))))
  }

  /** Either the one is a prefix of the other, or the first difference decides. */
  lemma {:induction false} UpToMeaning(a: string, b: string)
    ensures UpTo(a, b) <==> a <= b || exists i :: FirstDifference(a, b, i) && a[i] < b[i]
  {
    if a != "" && b != "" && a[0] == b[0] {
      var x, y := a[1..], b[1..];
      UpToMeaning(x, y);
      assert a == [a[0]] + x && b == [b[0]] + y;
      forall i: nat ensures FirstDifference(a, b, i + 1) <==> FirstDifference(x, y, i) {
        if i < |x| && i < |y| {
          assert a[..i + 1] == [a[0]] + x[..i] && b[..i + 1] == [b[0]] + y[..i];
          assert x[..i] == a[..i + 1][1..] && y[..i] == b[..i + 1][1..];
        }
      }
      if i :| FirstDifference(a, b, i) && a[i] < b[i] {
        assert FirstDifference(x, y, i - 1);
      }
      if i :| FirstDifference(x, y, i) && x[i] < y[i] {
        assert FirstDifference(a, b, i + 1);
      }
    } else if a != "" && b != "" {
      assert FirstDifference(a, b, 0);
    }
  }

  predicate FirstDifference(a: string, b: string, i: int)
  {
    0 <= i < |a| && i < |b| && a[..i] == b[..i] && a[i] != b[i]
  }

  lemma {:induction false} UpToIsTotal(a: string, b: string)
    ensures UpTo(a, b) || UpTo(b, a)
  {
    if a != "" && b != "" {
      UpToIsTotal(a[1..], b[1..]);
    }
  }

  lemma {:induction false} UpToIsTransitive(a: string, b: string, c: string)
    requires UpTo(a, b) && UpTo(b, c)
    ensures UpTo(a, c)
  {
    if a != "" && a[0] == c[0] {
      UpToIsTransitive(a[1..], b[1..], c[1..]);
    }
  }

  predicate Ascending(keys: seq<string>)
  {
    forall i, j :: 0 <= i < j < |keys| ==> UpTo(keys[i], keys[j])
  }

  /** `sort.Strings` on strings without duplicates. */
  method SortStrings(keys: seq<string>) returns (sorted: seq<string>)
    requires Distinct(keys)
    ensures Ascending(sorted) && Distinct(sorted) && Elements(sorted) == Elements(keys)
  {
    sorted := [];
    for k := 0 to |keys|
      invariant Ascending(sorted) && Distinct(sorted) && Elements(sorted) == Elements(keys[..k])
    {
      assert keys[..k + 1] == keys[..k] + [keys[k]];
      ElementsSnoc(keys[..k], keys[k]);
      assert keys[k] !in Elements(keys[..k]);
      sorted := Insert(sorted, keys[k]);
    }
    assert keys[..|keys|] == keys;
  }

  method Insert(sorted: seq<string>, key: string) returns (more: seq<string>)
    requires Ascending(sorted) && Distinct(sorted) && key !in Elements(sorted)
    ensures Ascending(more) && Distinct(more) && Elements(more) == Elements(sorted) + {key}
  {
    var i := 0;
    while i < |sorted| && !UpTo(key, sorted[i])
      invariant i <= |sorted| && forall j :: 0 <= j < i ==> UpTo(sorted[j], key)
    {
      UpToIsTotal(key, sorted[i]);
      i := i + 1;
    }
    if i < |sorted| {
      forall j | i <= j < |sorted| ensures UpTo(key, sorted[j]) {
        if i < j {
          UpToIsTransitive(key, sorted[i], sorted[j]);
        }
      }
    }
    more := sorted[..i] + [key] + sorted[i..];
    InsertedAt(sorted, i, key, more);
  }

  lemma InsertedAt(sorted: seq<string>, i: nat, key: string, more: seq<string>)
    requires i <= |sorted| && more == sorted[..i] + [key] + sorted[i..]
    requires Ascending(sorted) && Distinct(sorted) && key !in Elements(sorted)
    requires forall j :: 0 <= j < i ==> UpTo(sorted[j], key)
    requires forall j :: i <= j < |sorted| ==> UpTo(key, sorted[j])
    ensures Ascending(more) && Distinct(more) && Elements(more) == Elements(sorted) + {key}
  {
    assert Elements(more) == Elements(sorted) + {key} by {
      InsertedElements(sorted, i, key);
    }
    forall m, n | 0 <= m < n < |more| ensures UpTo(more[m], more[n]) && more[m] != more[n] {
      assert more[m] == if m < i then sorted[m] else if m == i then key else sorted[m - 1];
      assert more[n] == if n < i then sorted[n] else if n == i then key else sorted[n - 1];
    }
  }

  lemma InsertedElements(sorted: seq<string>, i: nat, key: string)
    requires i <= |sorted|
    ensures Elements(sorted[..i] + [key] + sorted[i..]) == Elements(sorted) + {key}
  {
    var more := sorted[..i] + [key] + sorted[i..];
    assert more[i] == key;
    forall m | 0 <= m < |sorted| ensures sorted[m] in more {
      assert sorted[m] == more[if m < i then m else m + 1];
    }
  }

  predicate Distinct<T(==)>(xs: seq<T>)
  {
    forall i, j :: 0 <= i < j < |xs| ==> xs[i] != xs[j]
  }

  lemma ElementsCons(head: string, tail: seq<string>)
    ensures Elements([head] + tail) == {head} + Elements(tail)
    ensures Distinct([head] + tail) <==> head !in tail && Distinct(tail)
  {
    var all := [head] + tail;
    assert all[0] == head && all[1..] == tail;
    if Distinct(all) {
      forall i, j | 0 <= i < j < |tail| ensures tail[i] != tail[j] {
        assert all[i + 1] != all[j + 1];
      }
    }
  }

  lemma ElementsSnoc(init: seq<string>, last: string)
    ensures Elements(init + [last]) == Elements(init) + {last}
    ensures last !in init && Distinct(init) ==> Distinct(init + [last])
  {
    var all := init + [last];
    assert all[|init|] == last;
  }

  lemma ConcatDistinct(a: seq<string>, b: seq<string>)
    requires Distinct(a) && Distinct(b) && Elements(a) !! Elements(b)
    ensures Distinct(a + b) && Elements(a + b) == Elements(a) + Elements(b)
  {
    forall i, j | 0 <= i < j < |a + b| ensures (a + b)[i] != (a + b)[j] {
      if i < |a| <= j {
        assert a[i] in Elements(a) && b[j - |a|] in Elements(b);
      }
    }
    forall x | x in Elements(a) + Elements(b) ensures x in a + b {}
  }
}
