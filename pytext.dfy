/** Python's string operations that the modelled code relies on, written out
    with Python's semantics: slicing with negative and out-of-range bounds,
    `str.startswith`/`str.endswith`, `str.replace`, `str.join`, the ordering
    of `<` on strings and the builtin `sorted` on a set of strings. */
module PyText {
  import opened Wrappers

  /** `s[i]` on a Python list: a negative index counts from the end, and an
      index out of range raises IndexError. */
  function Index<T>(s: seq<T>, i: int): (r: Result<T>)
    ensures 0 <= i < |s| ==> r == Ok(s[i])
    ensures -|s| <= i < 0 ==> r == Ok(s[i + |s|])
    ensures r.Err? ==> r.error == IndexError && (i >= |s| || i < -|s|)
    ensures i >= |s| || i < -|s| ==> r == Err(IndexError)
  {
    if 0 <= i < |s| then Ok(s[i])
    else if -|s| <= i < 0 then Ok(s[i + |s|])
    else Err(IndexError)
  }

  // ---------------------------------------------------------------------
  // Slicing

  /** The position a slice bound `i` denotes in a string of length `n`:
      a negative bound counts from the end, and the result is clamped to
      `[0, n]`. */
  function SliceBound(i: int, n: nat): (k: nat)
    ensures k <= n
    ensures 0 <= i <= n ==> k == i
    ensures i < 0 && -i <= n ==> k == n + i
    ensures i > n ==> k == n
    ensures i + n < 0 ==> k == 0
  {
    if i < 0 then (if i + n < 0 then 0 else i + n)
    else if i > n then n
    else i
  }

  /** `s[:i]` */
  function Prefix(s: string, i: int): string
  {
    s[..SliceBound(i, |s|)]
  }

  /** `s[i:]` */
  function Suffix(s: string, i: int): string
  {
    s[SliceBound(i, |s|)..]
  }

  /** `s[i:j]` */
  function Slice(s: string, i: int, j: int): string
  {
    var a, b := SliceBound(i, |s|), SliceBound(j, |s|);
    if a <= b then s[a..b] else []
  }

  predicate StartsWith(s: string, p: string)
  {
    |p| <= |s| && s[..|p|] == p
  }

  predicate EndsWith(s: string, p: string)
  {
    |p| <= |s| && s[|s| - |p|..] == p
  }

  /** A string of `n` blanks, Python's `" " * n`. */
  function Spaces(n: nat): (r: string)
    ensures |r| == n && forall i :: 0 <= i < n ==> r[i] == ' '
  {
    seq(n, _ => ' ')
  }

  /** `sep.join(parts)` */
  function Join(sep: string, parts: seq<string>): string
  {
    if |parts| == 0 then ""
    else if |parts| == 1 then parts[0]
    else parts[0] + sep + Join(sep, parts[1..])
  }

  // ---------------------------------------------------------------------
  // str.replace

  /** `s.replace(pattern, replacement)`: the non-overlapping occurrences of
      `pattern`, found from the left, are replaced. An empty pattern matches
      before every character and at the end. */
  function ReplaceAll(s: string, pattern: string, replacement: string): string
    decreases |s|
  {
    if pattern == [] then
      if s == [] then replacement
      else replacement + [s[0]] + ReplaceAll(s[1..], pattern, replacement)
    else if StartsWith(s, pattern) then
      replacement + ReplaceAll(s[|pattern|..], pattern, replacement)
    else if s == [] then []
    else [s[0]] + ReplaceAll(s[1..], pattern, replacement)
  }

  /** `pattern` occurs in `s` starting at index `i`. */
  predicate OccursAt(s: string, pattern: string, i: nat)
  {
    i + |pattern| <= |s| && s[i..i + |pattern|] == pattern
  }

  /** A string without any occurrence of the pattern is left as it is. */
  lemma {:induction false} ReplaceAllAbsent(s: string, pattern: string, replacement: string)
    requires pattern != []
    requires forall i: nat :: i < |s| ==> !OccursAt(s, pattern, i)
    ensures ReplaceAll(s, pattern, replacement) == s
  {
    if s != [] {
      assert !OccursAt(s, pattern, 0);
      assert !StartsWith(s, pattern);
      forall i: nat | i < |s[1..]|
        ensures !OccursAt(s[1..], pattern, i)
      {
        assert !OccursAt(s, pattern, i + 1);
        if i + |pattern| <= |s[1..]| {
          assert s[1..][i..i + |pattern|] == s[i + 1..i + 1 + |pattern|];
        }
      }
      ReplaceAllAbsent(s[1..], pattern, replacement);
    }
  }

  /** The leftmost occurrence is replaced first: when `a` holds no
      occurrence of `pattern` that starts inside it, the call copies `a`,
      replaces the occurrence that follows, and carries on with `b`. */
  lemma {:induction false} ReplaceAllLeftmost(a: string, pattern: string, replacement: string, b: string)
    requires pattern != []
    requires forall i: nat :: i < |a| ==> !OccursAt(a + pattern + b, pattern, i)
    ensures ReplaceAll(a + pattern + b, pattern, replacement) == a + replacement + ReplaceAll(b, pattern, replacement)
    decreases |a|
  {
    if a == [] {
      ReplaceAllAtStart(pattern, replacement, b);
      EmptyPrefix(a, pattern + b);
      EmptyPrefix(a, replacement + ReplaceAll(b, pattern, replacement));
    } else {
      LeftmostTail(a, pattern, b);
      ReplaceAllLeftmost(a[1..], pattern, replacement, b);
      LeftmostStep(a, pattern, replacement, b);
    }
  }

  lemma EmptyPrefix(a: string, s: string)
    requires a == []
    ensures a + s == s
  {
  }

  /** One step of ReplaceAllLeftmost: the first character of `a` is copied. */
  lemma LeftmostStep(a: string, pattern: string, replacement: string, b: string)
    requires pattern != [] && a != []
    requires !StartsWith(a + pattern + b, pattern)
    requires ReplaceAll(a[1..] + pattern + b, pattern, replacement) == a[1..] + replacement + ReplaceAll(b, pattern, replacement)
    ensures ReplaceAll(a + pattern + b, pattern, replacement) == a + replacement + ReplaceAll(b, pattern, replacement)
  {
    ConcatTail(a, pattern, b);
    ReplaceAllCopy(a + pattern + b, pattern, replacement);
    ConsConcat(a, replacement, ReplaceAll(b, pattern, replacement));
  }

  lemma ConcatTail(a: string, p: string, b: string)
    requires a != []
    ensures (a + p + b)[1..] == a[1..] + p + b && (a + p + b)[0] == a[0]
  {
  }

  lemma ConsConcat(a: string, r: string, rest: string)
    requires a != []
    ensures [a[0]] + (a[1..] + r + rest) == a + r + rest
  {
    assert [a[0]] + a[1..] == a;
  }

  /** A character that does not start an occurrence is copied. */
  lemma ReplaceAllCopy(s: string, pattern: string, replacement: string)
    requires pattern != [] && s != [] && !StartsWith(s, pattern)
    ensures ReplaceAll(s, pattern, replacement) == [s[0]] + ReplaceAll(s[1..], pattern, replacement)
  {
  }

  /** An occurrence at the start is replaced. */
  lemma ReplaceAllAtStart(pattern: string, replacement: string, b: string)
    requires pattern != []
    ensures ReplaceAll(pattern + b, pattern, replacement) == replacement + ReplaceAll(b, pattern, replacement)
  {
    var s := pattern + b;
    assert s[..|pattern|] == pattern;
    assert s[|pattern|..] == b;
  }

  /** The hypothesis of ReplaceAllLeftmost passes from `a` to `a[1..]`,
      and `pattern` does not start the text. */
  lemma LeftmostTail(a: string, pattern: string, b: string)
    requires pattern != [] && a != []
    requires forall i: nat :: i < |a| ==> !OccursAt(a + pattern + b, pattern, i)
    ensures (a + pattern + b)[1..] == a[1..] + pattern + b
    ensures !StartsWith(a + pattern + b, pattern) && (a + pattern + b)[0] == a[0]
    ensures forall i: nat :: i < |a[1..]| ==> !OccursAt(a[1..] + pattern + b, pattern, i)
  {
    var s := a + pattern + b;
    var t := a[1..] + pattern + b;
    assert s[1..] == t;
    assert !OccursAt(s, pattern, 0);
    assert s[0..|pattern|] == s[..|pattern|];
    forall i: nat | i < |a[1..]|
      ensures !OccursAt(t, pattern, i)
    {
      assert !OccursAt(s, pattern, i + 1);
      assert t[i..i + |pattern|] == s[i + 1..i + 1 + |pattern|];
    }
  }

  // ---------------------------------------------------------------------
  // Ordering

  /** Python's `a < b` on strings: lexicographic by code point, a proper
      prefix coming first. */
  predicate Less(a: string, b: string)
    decreases |a|
  {
    if a == [] then b != []
    else if b == [] then false
    else a[0] < b[0] || (a[0] == b[0] && Less(a[1..], b[1..]))
  }

  lemma {:induction false} LessIrreflexive(a: string)
    ensures !Less(a, a)
  {
    if a != [] {
      LessIrreflexive(a[1..]);
    }
  }

  lemma {:induction false} LessTransitive(a: string, b: string, c: string)
    requires Less(a, b) && Less(b, c)
    ensures Less(a, c)
  {
    if a != [] && b != [] && c != [] && a[0] == b[0] && b[0] == c[0] {
      LessTransitive(a[1..], b[1..], c[1..]);
    }
  }

  lemma {:induction false} LessTotal(a: string, b: string)
    ensures a == b || Less(a, b) || Less(b, a)
  {
    if a != [] && b != [] && a[0] == b[0] {
      LessTotal(a[1..], b[1..]);
      if a[1..] == b[1..] {
        assert a == [a[0]] + a[1..] && b == [b[0]] + b[1..];
      }
    }
  }

  lemma LessAsymmetric(a: string, b: string)
    requires Less(a, b)
    ensures !Less(b, a)
  {
    if Less(b, a) {
      LessTransitive(a, b, a);
      LessIrreflexive(a);
    }
  }

  lemma LessAsymmetricAll()
    ensures forall a: string, b: string :: Less(a, b) ==> !Less(b, a)
  {
    forall a: string, b: string | Less(a, b)
      ensures !Less(b, a)
    {
      LessAsymmetric(a, b);
    }
  }

  /** `m` is the least element of `s`. */
  predicate IsLeast(m: string, s: set<string>)
  {
    m in s && forall x :: x in s && x != m ==> Less(m, x)
  }

  lemma {:induction false} LeastExists(s: set<string>)
    requires s != {}
    ensures exists m :: IsLeast(m, s)
    decreases |s|
  {
    var y :| y in s;
    if s == {y} {
      assert IsLeast(y, s);
    } else {
      LeastExists(s - {y});
      var m :| IsLeast(m, s - {y});
      LessTotal(y, m);
      if Less(y, m) {
        forall x | x in s && x != y
          ensures Less(y, x)
        {
          if x != m {
            LessTransitive(y, m, x);
          }
        }
        assert IsLeast(y, s);
      } else {
        assert IsLeast(m, s);
      }
    }
  }

  /** The least element of a non-empty set of strings. */
  function Least(s: set<string>): (m: string)
    requires s != {}
    ensures m in s
    ensures forall x :: x in s && x != m ==> Less(m, x)
  {
    LeastExists(s);
    LessAsymmetricAll();
    var m :| IsLeast(m, s);
    m
  }

  /** Python's `sorted(s)` for a set of strings: each element once, in
      strictly ascending order. */
  function Sorted(s: set<string>): (r: seq<string>)
    ensures |r| == |s|
    ensures forall x :: x in r <==> x in s
    ensures forall i, j :: 0 <= i < j < |r| ==> Less(r[i], r[j])
    decreases |s|
  {
    if s == {} then []
    else
      var m := Least(s);
      [m] + Sorted(s - {m})
  }

  /** The head of an ascending listing of a set is its least element,
      and the tail lists the rest. */
  lemma ListingHead(s: set<string>, r: seq<string>)
    requires forall x :: x in r <==> x in s
    requires forall i, j :: 0 <= i < j < |r| ==> Less(r[i], r[j])
    requires r != []
    ensures s != {} && r[0] == Least(s)
    ensures forall x :: x in r[1..] <==> x in s - {r[0]}
  {
    assert r[0] in s;
    var m := Least(s);
    forall x | x in s && x != r[0]
      ensures Less(r[0], x)
    {
      var k :| 0 <= k < |r| && r[k] == x;
      assert k != 0;
    }
    if r[0] != m {
      LessAsymmetric(m, r[0]);
    }
    forall x
      ensures x in r[1..] <==> x in s - {r[0]}
    {
      if x in r[1..] {
        var k :| 0 <= k < |r[1..]| && r[1..][k] == x;
        assert Less(r[0], r[k + 1]);
        LessIrreflexive(x);
      }
      if x in s - {r[0]} {
        var k :| 0 <= k < |r| && r[k] == x;
        assert k != 0;
        assert r[1..][k - 1] == x;
      }
    }
  }

  /** `sorted` is the only strictly ascending listing of a set. */
  lemma {:induction false} SortedIsUnique(s: set<string>, r: seq<string>)
    requires forall x :: x in r <==> x in s
    requires forall i, j :: 0 <= i < j < |r| ==> Less(r[i], r[j])
    ensures r == Sorted(s)
    decreases |r|
  {
    if r == [] {
      assert forall x :: x !in s;
      assert s == {};
    } else {
      ListingHead(s, r);
      var m := r[0];
      SortedIsUnique(s - {m}, r[1..]);
      assert r == [m] + r[1..];
    }
  }
}
